/**
 Runs of the peer table of one node. Every listed peer has an entry in the table exactly while peers
 subscribe only between joining and leaving. The topic table is the fold of the announcements exactly while
 no peer leaves that is absent and whose subscription stands.
 */
module FloodsubMembership {
  import opened Floodsub

  datatype Event =
    | Joined(peer: Peer, queue: seq<Rpc>)
    | Announced(peer: Peer, sub: SubOpts)
    | Left(peer: Peer)

  // A join puts a queue in the table; the hello packet is what the queue may start with.
  function After(n: Node, e: Event): Node {
    match e
    case Joined(p, queue) => n.(peers := n.peers[p := queue])
    case Announced(p, sub) => AfterSubOpts(n, p, sub)
    case Left(p) => AfterDeadPeers(n, [p])
  }

  lemma OneDeadPeer(n: Node, p: Peer)
    ensures AfterDeadPeers(n, [p]) ==
      if p in n.peers then n.(peers := n.peers - {p}, peerTopics := WithoutPeer(n.peerTopics, p)) else n
  {}

  function NodeAfter(n: Node, events: seq<Event>): Node {
    if events == [] then n else After(NodeAfter(n, events[..|events| - 1]), events[|events| - 1])
  }

  // The peers that have joined and not left since.
  function Present(events: seq<Event>): set<Peer> {
    if events == [] then {}
    else
      var before := Present(events[..|events| - 1]);
      match events[|events| - 1]
      case Joined(p, _) => before + {p}
      case Announced(_, _) => before
      case Left(p) => before - {p}
  }

  // An event that can be trusted: whoever subscribes is present.
  ghost predicate Sound(e: Event, present: set<Peer>) {
    e.Announced? && e.sub.subscribe ==> e.peer in present
  }

  // A peer may join again while present, and announce or leave again after leaving; it may not subscribe.
  ghost predicate SubscribersPresent(events: seq<Event>) {
    forall i :: 0 <= i < |events| ==> Sound(events[i], Present(events[..i]))
  }

  // Nothing after `i` withdraws what the announcement at `i` said.
  ghost predicate Stands(events: seq<Event>, i: nat, p: Peer, t: Topic)
    requires i < |events|
  {
    && events[i] == Announced(p, SubOpts(true, t))
    && forall j :: i < j < |events| ==> events[j] != Announced(p, SubOpts(false, t)) && events[j] != Left(p)
  }

  ghost predicate Announces(events: seq<Event>, p: Peer, t: Topic) {
    exists i :: 0 <= i < |events| && Stands(events, i, p, t)
  }

  ghost predicate Listed(n: Node, p: Peer, t: Topic) { t in n.peerTopics && p in n.peerTopics[t] }

  ghost predicate NoDuplicates(list: seq<Peer>) {
    forall i, j :: 0 <= i < j < |list| ==> list[i] != list[j]
  }

  ghost predicate ListsDistinct(n: Node) {
    forall t :: t in n.peerTopics ==> NoDuplicates(n.peerTopics[t])
  }

  lemma {:induction false} WithoutNoDuplicates(list: seq<Peer>, p: Peer)
    requires NoDuplicates(list)
    ensures NoDuplicates(Without(list, p))
  {
    if list != [] {
      WithoutNoDuplicates(list[1..], p);
      var rest := Without(list[1..], p);
      forall j | 0 <= j < |rest| ensures rest[j] != list[0] { assert rest[j] in list[1..]; }
      assert Without(list, p) == if list[0] == p then rest else [list[0]] + rest;
    }
  }

  lemma AnnouncesStep(before: seq<Event>, e: Event, p: Peer, t: Topic)
    ensures Announces(before + [e], p, t) <==>
      (e == Announced(p, SubOpts(true, t)))
      || (Announces(before, p, t) && e != Announced(p, SubOpts(false, t)) && e != Left(p))
  {
    var events := before + [e];
    if Announces(before, p, t) && e != Announced(p, SubOpts(false, t)) && e != Left(p) {
      var i :| 0 <= i < |before| && Stands(before, i, p, t);
      assert Stands(events, i, p, t);
    }
    if e == Announced(p, SubOpts(true, t)) { assert Stands(events, |before|, p, t); }
    if Announces(events, p, t) && e != Announced(p, SubOpts(true, t)) {
      var i :| 0 <= i < |events| && Stands(events, i, p, t);
      assert events[|before|] == e;
      forall j | i < j < |before|
        ensures before[j] != Announced(p, SubOpts(false, t)) && before[j] != Left(p)
      {
        assert before[j] == events[j];
      }
      assert Stands(before, i, p, t);
    }
  }

  lemma StepOfLists(n: Node, e: Event)
    requires ListsDistinct(n)
    ensures ListsDistinct(After(n, e))
  {
    match e
    case Joined(_, _) =>
    case Announced(p, sub) =>
      if sub.topic in n.peerTopics { WithoutNoDuplicates(n.peerTopics[sub.topic], p); }
    case Left(p) =>
      OneDeadPeer(n, p);
      forall t | t in n.peerTopics ensures NoDuplicates(Without(n.peerTopics[t], p)) {
        WithoutNoDuplicates(n.peerTopics[t], p);
      }
  }

  ghost predicate Fresh(n: Node) { n.peerTopics == map[] && n.peers == map[] }

  // The table holds the peers present, every list is free of duplicates, and a peer is listed for a
  // topic exactly when its last word on it stands; so every listed peer has an entry.
  ghost predicate IsFold(n: Node, events: seq<Event>) {
    && n.peers.Keys == Present(events) && ListsDistinct(n) && ListedHavePeers(n)
    && forall p, t :: Listed(n, p, t) <==> Announces(events, p, t)
  }

  lemma FoldStep(n: Node, before: seq<Event>, e: Event)
    requires IsFold(n, before) && Sound(e, Present(before))
    ensures IsFold(After(n, e), before + [e])
  {
    var events := before + [e];
    assert events[..|events| - 1] == before;
    StepOfLists(n, e);
    if e.Left? { OneDeadPeer(n, e.peer); }
    assert After(n, e).peers.Keys == Present(events);
    EventKeepsPeersIff(n, e);
    forall p, t ensures Listed(After(n, e), p, t) <==> Announces(events, p, t) {
      FoldStepAt(n, before, e, p, t);
    }
  }

  lemma FoldStepAt(n: Node, before: seq<Event>, e: Event, p: Peer, t: Topic)
    requires IsFold(n, before)
    ensures Listed(After(n, e), p, t) <==> Announces(before + [e], p, t)
  {
    assert Listed(n, p, t) <==> Announces(before, p, t);
    assert Listed(n, p, t) ==> p in n.peers;
    ListingStep(n, before, e, p, t);
  }

  // One event keeps the listing of one peer for one topic right, unless it is the leaving of an absent
  // peer whose subscription stands.
  lemma ListingStep(n: Node, before: seq<Event>, e: Event, p: Peer, t: Topic)
    requires Listed(n, p, t) <==> Announces(before, p, t)
    ensures (Listed(After(n, e), p, t) <==> Announces(before + [e], p, t))
      <==> !(e == Left(p) && p !in n.peers && Announces(before, p, t))
  {
    AnnouncesStep(before, e, p, t);
    hide Announces;
    if e.Left? && e.peer !in n.peers {
      OneDeadPeer(n, e.peer);
    } else {
      ListedStep(n, e, p, t);
    }
  }

  lemma ListedStaysPresent(n: Node, e: Event)
    requires ListedHavePeers(n)
    requires e.Announced? || e.Left? ==> e.peer in n.peers
    ensures ListedHavePeers(After(n, e))
  {
    var n' := After(n, e);
    if e.Left? { OneDeadPeer(n, e.peer); }
    forall t, p | t in n'.peerTopics && p in n'.peerTopics[t] ensures p in n'.peers {
      assert Listed(n', p, t);
      ListedStep(n, e, p, t);
    }
  }

  lemma ListedStep(n: Node, e: Event, p: Peer, t: Topic)
    requires e.Left? ==> e.peer in n.peers
    ensures Listed(After(n, e), p, t) <==>
      (e == Announced(p, SubOpts(true, t)))
      || (Listed(n, p, t) && e != Announced(p, SubOpts(false, t)) && e != Left(p))
  {
    if e.Left? { OneDeadPeer(n, e.peer); }
  }

  // In any history whatever, the table holds the peers present.
  lemma {:induction false} TableIsPresent(n: Node, events: seq<Event>)
    requires Fresh(n)
    ensures NodeAfter(n, events).peers.Keys == Present(events)
  {
    if events != [] {
      var before, e := events[..|events| - 1], events[|events| - 1];
      TableIsPresent(n, before);
      if e.Left? { OneDeadPeer(NodeAfter(n, before), e.peer); }
    }
  }

  // One announcement keeps every listed peer in the table exactly when it withdraws, or its peer is there.
  lemma AnnouncementKeepsPeersIff(n: Node, p: Peer, sub: SubOpts)
    requires ListedHavePeers(n)
    ensures ListedHavePeers(AfterSubOpts(n, p, sub)) <==> !sub.subscribe || p in n.peers
  {
    if sub.subscribe { assert Listed(AfterSubOpts(n, p, sub), p, sub.topic); }
  }

  lemma EventKeepsPeersIff(n: Node, e: Event)
    requires ListedHavePeers(n)
    ensures ListedHavePeers(After(n, e)) <==> Sound(e, n.peers.Keys)
  {
    if e.Announced? {
      AnnouncementKeepsPeersIff(n, e.peer, e.sub);
    } else if e.Left? && e.peer !in n.peers {
      OneDeadPeer(n, e.peer);
    } else {
      ListedStaysPresent(n, e);
    }
  }

  // ---------- histories ----------

  // At every moment of the history, each listed peer is in the table.
  ghost predicate AlwaysInTable(n: Node, events: seq<Event>) {
    forall k :: 0 <= k <= |events| ==> ListedHavePeers(NodeAfter(n, events[..k]))
  }

  // At every moment, the node's tables are the fold of the history so far.
  ghost predicate AlwaysFold(n: Node, events: seq<Event>) {
    forall k :: 0 <= k <= |events| ==> IsFold(NodeAfter(n, events[..k]), events[..k])
  }

  lemma Prefixes(events: seq<Event>)
    requires events != []
    ensures var before := events[..|events| - 1];
      && (forall k :: 0 <= k <= |before| ==> before[..k] == events[..k])
      && events[..|events|] == events && before[..|before|] == before
  {}

  lemma SubscribersStep(events: seq<Event>)
    requires events != []
    ensures var before := events[..|events| - 1];
      SubscribersPresent(events) <==> SubscribersPresent(before) && Sound(events[|events| - 1], Present(before))
  {
    hide Present, Sound;
    var before := events[..|events| - 1];
    assert forall i :: 0 <= i < |before| ==> before[i] == events[i] && before[..i] == events[..i];
  }

  // In any history, every listed peer is in the table all the time exactly when all subscriptions are
  // announced by peers present.
  lemma {:induction false} AlwaysInTableIff(n: Node, events: seq<Event>)
    requires Fresh(n)
    ensures AlwaysInTable(n, events) <==> SubscribersPresent(events)
  {
    if events == [] {
      assert events[..0] == [];
    } else {
      var before := events[..|events| - 1];
      AlwaysInTableIff(n, before);
      TableIsPresent(n, before);
      SubscribersStep(events);
      Prefixes(events);
      hide ListedHavePeers, Present, After, SubscribersPresent, Fresh, Sound;
      if AlwaysInTable(n, before) {
        assert ListedHavePeers(NodeAfter(n, before[..|before|]));
        EventKeepsPeersIff(NodeAfter(n, before), events[|events| - 1]);
      }
    }
  }

  // And so it is with the fold of the history.
  lemma {:induction false} TableIsFoldIff(n: Node, events: seq<Event>)
    requires Fresh(n)
    ensures AlwaysFold(n, events) <==> SubscribersPresent(events)
  {
    AlwaysInTableIff(n, events);
    if SubscribersPresent(events) { TableIsFold(n, events); }
  }

  lemma {:induction false} TableIsFold(n: Node, events: seq<Event>)
    requires Fresh(n) && SubscribersPresent(events)
    ensures AlwaysFold(n, events)
  {
    if events == [] {
      assert events[..0] == [];
    } else {
      var before, e := events[..|events| - 1], events[|events| - 1];
      hide IsFold, Present, After, Sound;
      SubscribersStep(events);
      hide SubscribersPresent, Fresh;
      TableIsFold(n, before);
      assert before[..|before|] == before;
      FoldStep(NodeAfter(n, before), before, e);
      assert events == before + [e];
      FoldExtends(n, events);
    }
  }

  lemma FoldExtends(n: Node, events: seq<Event>)
    requires events != [] && AlwaysFold(n, events[..|events| - 1]) && IsFold(NodeAfter(n, events), events)
    ensures AlwaysFold(n, events)
  {
    hide IsFold, NodeAfter;
    var before := events[..|events| - 1];
    Prefixes(events);
    forall k | 0 <= k <= |events| ensures IsFold(NodeAfter(n, events[..k]), events[..k]) {
      if k < |events| { assert IsFold(NodeAfter(n, before[..k]), before[..k]); }
    }
  }

  // ---------- the fold alone ----------

  ghost predicate TableSaysHistory(n: Node, events: seq<Event>) {
    forall p, t :: Listed(n, p, t) <==> Announces(events, p, t)
  }

  ghost predicate LeavesNothing(e: Event, before: seq<Event>) {
    e.Left? && e.peer !in Present(before) ==> forall t :: !Announces(before, e.peer, t)
  }

  ghost predicate AlwaysSaysHistory(n: Node, events: seq<Event>) {
    forall k :: 0 <= k <= |events| ==> TableSaysHistory(NodeAfter(n, events[..k]), events[..k])
  }

  // No peer leaves that is absent and whose subscription stands.
  ghost predicate LeaversLeaveNothing(events: seq<Event>) {
    forall i :: 0 <= i < |events| ==> LeavesNothing(events[i], events[..i])
  }

  lemma TableStepIff(n: Node, before: seq<Event>, e: Event)
    requires TableSaysHistory(n, before) && n.peers.Keys == Present(before)
    ensures TableSaysHistory(After(n, e), before + [e]) <==> LeavesNothing(e, before)
  {
    hide Listed, Announces, After, Present;
    forall p, t
      ensures (Listed(After(n, e), p, t) <==> Announces(before + [e], p, t))
        <==> !(e == Left(p) && p !in n.peers && Announces(before, p, t))
    {
      ListingStep(n, before, e, p, t);
    }
    if e.Left? && !LeavesNothing(e, before) {
      var t :| Announces(before, e.peer, t);
      assert !(Listed(After(n, e), e.peer, t) <==> Announces(before + [e], e.peer, t));
    }
  }

  lemma SaysHistoryStep(n: Node, events: seq<Event>)
    requires events != []
    ensures AlwaysSaysHistory(n, events) <==>
      AlwaysSaysHistory(n, events[..|events| - 1]) && TableSaysHistory(NodeAfter(n, events), events)
  {
    hide NodeAfter, TableSaysHistory;
    var before := events[..|events| - 1];
    Prefixes(events);
    if AlwaysSaysHistory(n, events) {
      forall k | 0 <= k <= |before| ensures TableSaysHistory(NodeAfter(n, before[..k]), before[..k]) {
        assert TableSaysHistory(NodeAfter(n, events[..k]), events[..k]);
      }
    }
    if AlwaysSaysHistory(n, before) && TableSaysHistory(NodeAfter(n, events), events) {
      forall k | 0 <= k <= |events| ensures TableSaysHistory(NodeAfter(n, events[..k]), events[..k]) {
        if k < |events| { assert TableSaysHistory(NodeAfter(n, before[..k]), before[..k]); }
      }
    }
  }

  lemma LeaversStep(events: seq<Event>)
    requires events != []
    ensures var before := events[..|events| - 1];
      LeaversLeaveNothing(events) <==> LeaversLeaveNothing(before) && LeavesNothing(events[|events| - 1], before)
  {
    hide LeavesNothing;
    var before := events[..|events| - 1];
    assert forall i :: 0 <= i < |before| ==> before[i] == events[i] && before[..i] == events[..i];
  }

  lemma LastStepIff(n: Node, events: seq<Event>)
    requires Fresh(n) && events != [] && AlwaysSaysHistory(n, events[..|events| - 1])
    ensures TableSaysHistory(NodeAfter(n, events), events)
      <==> LeavesNothing(events[|events| - 1], events[..|events| - 1])
  {
    hide TableSaysHistory, LeavesNothing, After, Present, Fresh;
    var before, e := events[..|events| - 1], events[|events| - 1];
    TableIsPresent(n, before);
    assert before[..|before|] == before;
    TableStepIff(NodeAfter(n, before), before, e);
    assert events == before + [e];
  }

  // In any history, a peer is listed exactly while its last word stands if and only if no peer leaves that
  // is absent and whose subscription stands.
  lemma {:induction false} ListedIsLastWordIff(n: Node, events: seq<Event>)
    requires Fresh(n)
    ensures AlwaysSaysHistory(n, events) <==> LeaversLeaveNothing(events)
  {
    if events == [] {
      assert events[..0] == [];
    } else {
      hide TableSaysHistory, LeavesNothing, NodeAfter, Fresh, AlwaysSaysHistory, LeaversLeaveNothing;
      var before := events[..|events| - 1];
      ListedIsLastWordIff(n, before);
      SaysHistoryStep(n, events);
      LeaversStep(events);
      if AlwaysSaysHistory(n, before) { LastStepIff(n, events); }
    }
  }

  // A history in which it fails: with two streams of one peer, the first to end empties the table, and
  // an announcement on the other lists a peer that has no queue to write to.
  lemma TwoStreamsOfOnePeer(self: Peer, p: Peer, t: Topic)
    ensures var n := Node(self, map[], map[], map[], map[]);
      var events := [Joined(p, []), Joined(p, []), Left(p), Announced(p, SubOpts(true, t))];
      Fresh(n) && !ListedHavePeers(NodeAfter(n, events))
  {
    var n := Node(self, map[], map[], map[], map[]);
    var e := [Joined(p, []), Joined(p, []), Left(p), Announced(p, SubOpts(true, t))];
    assert e[..3][..2] == e[..2] && e[..2][..1] == e[..1] && e[..1][..0] == [];
    OneDeadPeer(NodeAfter(n, e[..2]), p);
    assert NodeAfter(n, e[..1]) == After(n, e[0]);
    assert NodeAfter(n, e[..2]) == After(NodeAfter(n, e[..1]), e[1]);
    assert NodeAfter(n, e[..3]) == After(NodeAfter(n, e[..2]), e[2]);
    var n3 := NodeAfter(n, e[..3]);
    assert p !in n3.peers;
    assert NodeAfter(n, e) == AfterSubOpts(n3, p, SubOpts(true, t));
    assert Listed(NodeAfter(n, e), p, t);
  }

  // ---------- the announcements of one frame ----------

  // The last word of these announcements on the topic is to subscribe.
  ghost predicate LastSubscribes(subs: seq<SubOpts>, t: Topic) {
    exists i :: 0 <= i < |subs| && subs[i] == SubOpts(true, t) && forall j :: i < j < |subs| ==> subs[j].topic != t
  }

  ghost predicate Names(subs: seq<SubOpts>, t: Topic) { exists i :: 0 <= i < |subs| && subs[i].topic == t }

  lemma LastWordStep(before: seq<SubOpts>, sub: SubOpts, t: Topic)
    ensures Names(before + [sub], t) <==> Names(before, t) || sub.topic == t
    ensures LastSubscribes(before + [sub], t) <==>
      if sub.topic == t then sub.subscribe else LastSubscribes(before, t)
  {
    var subs := before + [sub];
    assert subs[|before|] == sub;
    if sub.topic == t && sub.subscribe { assert subs[|before|] == SubOpts(true, t); }
    if Names(before, t) {
      var i :| 0 <= i < |before| && before[i].topic == t;
      assert subs[i].topic == t;
    }
    if sub.topic != t && LastSubscribes(before, t) {
      var i :| 0 <= i < |before| && before[i] == SubOpts(true, t)
        && forall j :: i < j < |before| ==> before[j].topic != t;
      assert subs[i] == SubOpts(true, t);
      forall j | i < j < |subs| ensures subs[j].topic != t { if j < |before| { assert before[j].topic != t; } }
    }
    if LastSubscribes(subs, t) && sub.topic != t {
      var i :| 0 <= i < |subs| && subs[i] == SubOpts(true, t) && forall j :: i < j < |subs| ==> subs[j].topic != t;
      forall j | i < j < |before| ensures before[j].topic != t { assert subs[j].topic != t; }
      assert before[i] == SubOpts(true, t);
    }
  }

  lemma {:induction false} AnnouncementsList(n: Node, p: Peer, subs: seq<SubOpts>, q: Peer, t: Topic)
    ensures Listed(AfterSubscriptions(n, p, subs), q, t) <==>
      if q == p && Names(subs, t) then LastSubscribes(subs, t) else Listed(n, q, t)
  {
    if subs != [] {
      var before, sub := subs[..|subs| - 1], subs[|subs| - 1];
      assert subs == before + [sub];
      AnnouncementsList(n, p, before, q, t);
      LastWordStep(before, sub, t);
      hide Names, LastSubscribes, Listed;
      assert AfterSubscriptions(n, p, subs) == After(AfterSubscriptions(n, p, before), Announced(p, sub));
      ListedStep(AfterSubscriptions(n, p, before), Announced(p, sub), q, t);
    }
  }

  // After a frame, its sender is listed for a topic the frame names exactly when the frame's last word on
  // it is to subscribe; all other listings are as before.
  lemma FrameListsIff(n: Node, rpc: Rpc, p: Peer, now: nat, q: Peer, t: Topic)
    requires forall m :: m in rpc.publish ==> HasKey(n, m)
    ensures Listed(Incoming(n, rpc, p, now), q, t) <==>
      if q == p && Names(rpc.subscriptions, t) then LastSubscribes(rpc.subscriptions, t) else Listed(n, q, t)
  {
    MessagesKeepTables(n, p, rpc.publish, now);
    AnnouncementsList(AfterMessages(n, p, rpc.publish, now), p, rpc.subscriptions, q, t);
  }

  function Announcements(p: Peer, subs: seq<SubOpts>): seq<Event> {
    seq(|subs|, i requires 0 <= i < |subs| => Announced(p, subs[i]))
  }

  // The announcements of a frame are events of a history, one after the other.
  lemma {:induction false} AnnouncementsAreEvents(n: Node, p: Peer, subs: seq<SubOpts>)
    ensures AfterSubscriptions(n, p, subs) == NodeAfter(n, Announcements(p, subs))
  {
    if subs != [] {
      var before := subs[..|subs| - 1];
      AnnouncementsAreEvents(n, p, before);
      assert Announcements(p, subs)[..|subs| - 1] == Announcements(p, before);
    }
  }

  lemma FrameIsEvents(n: Node, rpc: Rpc, p: Peer, now: nat)
    requires forall m :: m in rpc.publish ==> HasKey(n, m)
    ensures Incoming(n, rpc, p, now) ==
      NodeAfter(AfterMessages(n, p, rpc.publish, now), Announcements(p, rpc.subscriptions))
  {
    AnnouncementsAreEvents(AfterMessages(n, p, rpc.publish, now), p, rpc.subscriptions);
  }

  // ---------- what a node says of itself, at the node that hears it ----------

  // A hello packet lists its sender at the receiver for exactly the topics the sender is subscribed to, and
  // for those it was listed for before.
  lemma HelloLists(n: Node, hello: Rpc, r: Node, now: nat, q: Peer, t: Topic)
    requires IsHello(n, hello)
    ensures Listed(Incoming(r, hello, n.self, now), q, t) <==>
      (q == n.self && t in n.topicApi) || Listed(r, q, t)
  {
    FrameListsIff(r, hello, n.self, now, q, t);
    hide Listed;
    var subs := hello.subscriptions;
    if Names(subs, t) {
      var i :| 0 <= i < |subs| && subs[i].topic == t;
      assert subs[i] in subs;
      LastNaming(subs, t);
    }
    if t in n.topicApi {
      assert SubOpts(true, t) in subs;
      var i :| 0 <= i < |subs| && subs[i] == SubOpts(true, t);
      assert subs[i].topic == t;
    }
  }

  // A topic that is only ever subscribed to is subscribed to last.
  lemma {:induction false} LastNaming(subs: seq<SubOpts>, t: Topic)
    requires Names(subs, t) && forall s :: s in subs ==> s.subscribe
    ensures LastSubscribes(subs, t)
  {
    var before, sub := subs[..|subs| - 1], subs[|subs| - 1];
    assert subs == before + [sub] && sub in subs;
    LastWordStep(before, sub, t);
    if sub.topic != t { LastNaming(before, t); }
  }

  // One announcement, of a topic subscribed or withdrawn, is believed by the node that hears it.
  lemma AnnouncementIsBelieved(r: Node, p: Peer, sub: SubOpts, now: nat, q: Peer, t: Topic)
    ensures Listed(Incoming(r, Rpc([], [sub]), p, now), q, t) <==>
      if q == p && t == sub.topic then sub.subscribe else Listed(r, q, t)
  {
    FrameListsIff(r, Rpc([], [sub]), p, now, q, t);
    assert [] + [sub] == [sub];
    LastWordStep([], sub, t);
  }

  lemma {:induction false} WithdrawalsUnlist(r: Node, p: Peer, topics: seq<Topic>, t: Topic)
    ensures Listed(AfterFrames(r, p, Withdrawals(topics)), p, t) <==> Listed(r, p, t) && t !in topics
  {
    if topics != [] {
      var rest, last := topics[..|topics| - 1], topics[|topics| - 1];
      assert Withdrawals(topics)[..|topics| - 1] == Withdrawals(rest);
      assert topics == rest + [last];
      WithdrawalsUnlist(r, p, rest, t);
      AnnouncementIsBelieved(AfterFrames(r, p, Withdrawals(rest)), p, SubOpts(false, last), 0, p, t);
    }
  }

  // The frames of one peer without messages, one after the other.
  ghost function AfterFrames(r: Node, p: Peer, frames: seq<Rpc>): Node {
    if frames == [] then r
    else
      var r', rpc := AfterFrames(r, p, frames[..|frames| - 1]), frames[|frames| - 1];
      Incoming(r', rpc.(publish := []), p, 0)
  }
}
