/**
 What is on its way between the two ends of `MplexPair` can always arrive: while no handler is down and
 every stream in a table has its task, pumps and arrivals alone empty the queues and the wires.
 */
module MplexDrain {
  import opened Bytes
  import opened MplexConn
  import opened MplexHeaders
  import opened MplexPair
  import opened Wrappers

  // Frames to be written, and openings still to be made, which become such frames.
  function Load(queue: seq<Item>): nat {
    if queue == [] then 0 else (if Opens(queue[0]) then 3 else 2) + Load(queue[1..])
  }

  function Openings(queue: seq<Item>): nat {
    if queue == [] then 0 else (if Opens(queue[0]) then 1 else 0) + Openings(queue[1..])
  }

  // The handler is up and every stream in the table has its task.
  ghost predicate Running(e: End) { !e.down && forall id :: id in e.core.table ==> id in e.core.inbox }

  ghost predicate AllRunning(p: Pair) { Running(p.west) && Running(p.east) }

  lemma {:induction false} WireItemQueued(queue: seq<Item>, f: Frame)
    ensures Load(queue + [Item(false, f)]) == Load(queue) + 2
    ensures Openings(queue + [Item(false, f)]) == Openings(queue)
  {
    if queue == [] {
      assert queue + [Item(false, f)] == [Item(false, f)];
      assert [Item(false, f)][1..] == [];
    } else {
      assert (queue + [Item(false, f)])[1..] == queue[1..] + [Item(false, f)];
      WireItemQueued(queue[1..], f);
    }
  }

  lemma PumpDrains(e: End)
    requires EndGood(e) && Running(e) && e.queue != []
    requires Opens(e.queue[0]) ==> e.core.counter + 1 < ID_LIMIT
    ensures var e' := Pumped(e);
      && Load(e'.queue) + |e'.wire| < Load(e.queue) + |e.wire|
      && e'.core.counter + Openings(e'.queue) == e.core.counter + Openings(e.queue)
      && Running(e') && e'.sent == e.sent && e'.taken == e.taken
  {
    var it, rest := e.queue[0], e.queue[1..];
    assert it in e.queue;
    if Opens(it) {
      assert Pow256(4) == 0x1_0000_0000;
      WireItemQueued(rest, Frame(e.core.counter + 1, NewStream, []));
    } else if it.internal {
      assert rest + [] == rest;
    }
  }

  lemma ArriveDrains(e: End, o: End)
    requires EndGood(e) && Running(e) && Link(o, e) && o.wire != []
    ensures var e' := Received(e, o.wire[0]);
      Running(e') && e'.queue == e.queue && e'.wire == e.wire && e'.sent == e.sent && e'.taken == e.taken
  {
    var f := o.wire[0];
    PipeArrives(o);
    assert FromOpened(o.core.counter, f) by {
      FlowFrames(o, e);
      assert f in Pipe(o);
    }
    hide Link, EndGood;
    assert e.queue + [] == e.queue;
  }

  ghost predicate OrderlyRun(steps: seq<Step>) { CanRun(INITIAL, steps) && Orderly(INITIAL, steps) }

  lemma OneMoreStep(steps: seq<Step>, s: Step)
    requires OrderlyRun(steps) && Enabled(Run(INITIAL, steps), s) && InTurn(Run(INITIAL, steps), s)
    ensures OrderlyRun(steps + [s]) && Run(INITIAL, steps + [s]) == Apply(Run(INITIAL, steps), s)
  {
    hide Enabled, InTurn, Apply;
    assert (steps + [s])[..|steps|] == steps;
  }

  ghost predicate Extends(steps: seq<Step>, longer: seq<Step>) {
    steps <= longer && forall i :: |steps| <= i < |longer| ==> longer[i].Pump? || longer[i].Arrive?
  }

  // Nothing was said or read.
  ghost predicate SameTalk(e: End, e': End) { e'.sent == e.sent && e'.taken == e.taken }

  // The next step that empties the queue and the wire of the end at `s`.
  function NextStep(p: Pair, s: Side): Step { if At(p, s).wire != [] then Arrive(Other(s)) else Pump(s) }

  ghost predicate CanDrain(p: Pair, s: Side) {
    && AllRunning(p) && NewIds(Pipe(At(p, Other(s)))) == []
    && At(p, s).core.counter + Openings(At(p, s).queue) < ID_LIMIT
  }

  // How far the end at `s` has drained from `p` to `p'`; the other end has not moved.
  ghost predicate Drained(p: Pair, p': Pair, s: Side) {
    var e, e', o, o' := At(p, s), At(p', s), At(p, Other(s)), At(p', Other(s));
    && e'.core.counter + Openings(e'.queue) == e.core.counter + Openings(e.queue)
    && o'.queue == o.queue && o'.wire == o.wire && SameTalk(e, e') && SameTalk(o, o')
  }

  function Left(e: End): nat { Load(e.queue) + |e.wire| }

  lemma BothRunning(p: Pair, s: Side)
    ensures AllRunning(p) <==> Running(At(p, s)) && Running(At(p, Other(s)))
  {}

  lemma ArrivalAt(p: Pair, s: Side)
    requires AllRunning(p) && At(p, s).wire != []
    ensures var step, e, o := NextStep(p, s), At(p, s), At(p, Other(s));
      && Enabled(p, step) && InTurn(p, step)
      && At(Apply(p, step), s) == e.(wire := e.wire[1..])
      && At(Apply(p, step), Other(s)) == Received(o, e.wire[0])
  {
    hide Received, Pipe;
  }

  // What the arrival of a frame leaves of being able to drain.
  lemma ArrivalLeaves(e: End, o: End)
    requires EndGood(o) && Link(e, o) && Running(e) && Running(o) && e.wire != [] && NewIds(Pipe(o)) == []
    ensures var e', o' := e.(wire := e.wire[1..]), Received(o, e.wire[0]);
      && Running(e') && Running(o') && NewIds(Pipe(o')) == []
      && Left(e') < Left(e) && o'.queue == o.queue && o'.wire == o.wire && SameTalk(e, e') && SameTalk(o, o')
  {
    hide EndGood, Link, NewIds, Load;
    ArriveDrains(o, e);
    SamePipe(o);
  }

  lemma ArrivalDrains(p: Pair, s: Side)
    requires Inv(p) && CanDrain(p, s) && At(p, s).wire != []
    ensures var step := NextStep(p, s);
      && Enabled(p, step) && InTurn(p, step)
      && CanDrain(Apply(p, step), s) && Drained(p, Apply(p, step), s)
      && Left(At(Apply(p, step), s)) < Left(At(p, s))
  {
    hide EndGood, Link, NewIds, Openings, Received, Pipe, AllRunning, Running, Apply, Enabled, InTurn, NextStep;
    hide Left, SameTalk;
    LinkedAt(p, s);
    hide Inv;
    ArrivalAt(p, s);
    BothRunning(p, s);
    BothRunning(Apply(p, NextStep(p, s)), s);
    ArrivalLeaves(At(p, s), At(p, Other(s)));
  }

  lemma LinkedAt(p: Pair, s: Side)
    requires Inv(p)
    ensures EndGood(At(p, s)) && EndGood(At(p, Other(s)))
    ensures Link(At(p, s), At(p, Other(s))) && Link(At(p, Other(s)), At(p, s))
  {}

  lemma PumpAt(p: Pair, s: Side)
    requires CanDrain(p, s) && At(p, s).wire == [] && At(p, s).queue != []
    ensures var step, e, o := NextStep(p, s), At(p, s), At(p, Other(s));
      && Enabled(p, step) && InTurn(p, step)
      && At(Apply(p, step), s) == Pumped(e) && At(Apply(p, step), Other(s)) == o
    ensures Opens(At(p, s).queue[0]) ==> At(p, s).core.counter + 1 < ID_LIMIT
  {
    assert Opens(At(p, s).queue[0]) ==> Openings(At(p, s).queue) > 0;
    hide Pumped, Pipe, NewIds, Openings;
  }

  lemma PumpingDrains(p: Pair, s: Side)
    requires Inv(p) && CanDrain(p, s) && At(p, s).wire == [] && At(p, s).queue != []
    ensures var step := NextStep(p, s);
      && Enabled(p, step) && InTurn(p, step)
      && CanDrain(Apply(p, step), s) && Drained(p, Apply(p, step), s)
      && Left(At(Apply(p, step), s)) < Left(At(p, s))
  {
    var e := At(p, s);
    LinkedAt(p, s);
    PumpAt(p, s);
    BothRunning(p, s);
    BothRunning(Apply(p, NextStep(p, s)), s);
    hide Inv, EndGood, Link, NewIds, Load, Openings, Pumped, Pipe, AllRunning, Running, Apply, Enabled, InTurn;
    hide NextStep, Opens;
    PumpDrains(e);
  }

  lemma DrainedTwice(p: Pair, q: Pair, r: Pair, s: Side)
    requires Drained(p, q, s) && Drained(q, r, s)
    ensures Drained(p, r, s)
  {
    hide Openings;
  }

  lemma ExtendsOnce(steps: seq<Step>, s: Step, longer: seq<Step>)
    requires Extends(steps + [s], longer) && (s.Pump? || s.Arrive?)
    ensures Extends(steps, longer)
  {
    assert longer[|steps|] == s;
  }

  lemma StepDrains(steps: seq<Step>, s: Side)
    requires OrderlyRun(steps)
    requires var p := Run(INITIAL, steps);
      CanDrain(p, s) && !(At(p, s).wire == [] && At(p, s).queue == [])
    ensures var p, longer := Run(INITIAL, steps), steps + [NextStep(Run(INITIAL, steps), s)];
      && OrderlyRun(longer) && CanDrain(Run(INITIAL, longer), s) && Drained(p, Run(INITIAL, longer), s)
      && Left(At(Run(INITIAL, longer), s)) < Left(At(p, s))
  {
    var p := Run(INITIAL, steps);
    RunInv(steps);
    hide Run, CanRun, Orderly, Enabled, InTurn, Apply, Inv, CanDrain, Left, Drained, NextStep;
    if At(p, s).wire != [] { ArrivalDrains(p, s); } else { PumpingDrains(p, s); }
    OneMoreStep(steps, NextStep(p, s));
  }

  lemma {:induction false} EndDrains(steps: seq<Step>, s: Side) returns (longer: seq<Step>)
    requires OrderlyRun(steps) && CanDrain(Run(INITIAL, steps), s)
    ensures Extends(steps, longer) && OrderlyRun(longer)
    ensures var p, p' := Run(INITIAL, steps), Run(INITIAL, longer);
      AllRunning(p') && Drained(p, p', s) && At(p', s).queue == [] && At(p', s).wire == []
    decreases Left(At(Run(INITIAL, steps), s))
  {
    var p := Run(INITIAL, steps);
    if At(p, s).wire == [] && At(p, s).queue == [] {
      longer := steps;
    } else {
      StepDrains(steps, s);
      var step := NextStep(p, s);
      assert step.Pump? || step.Arrive?;
      hide Run, CanRun, Orderly, CanDrain, Left, Drained, Extends, NextStep, Apply;
      longer := EndDrains(steps + [step], s);
      DrainedTwice(p, Run(INITIAL, steps + [step]), Run(INITIAL, longer), s);
      ExtendsOnce(steps, step, longer);
    }
  }

  // The counters leave room for the openings still to be made.
  ghost predicate Room(p: Pair) {
    var top := if p.west.core.counter < p.east.core.counter then p.east.core.counter else p.west.core.counter;
    top + Openings(p.west.queue) + Openings(p.east.queue) < ID_LIMIT
  }

  // The end that is ahead drains first, and then the other: no opening is on its way to either in between.
  lemma AheadCanDrain(p: Pair, s: Side)
    requires Inv(p) && AllRunning(p) && At(p, Other(s)).core.counter <= At(p, s).core.counter
    requires At(p, s).core.counter + Openings(At(p, s).queue) < ID_LIMIT
    ensures CanDrain(p, s)
  {
    var e, o := At(p, s), At(p, Other(s));
    assert Link(o, e);
    LinkIds(o, e);
    hide Pipe, NewIds, Inv, Link;
    assert Range(e.core.counter + 1, o.core.counter + 1) == [];
  }

  lemma EmptyIsLevel(p: Pair, s: Side)
    requires Inv(p) && At(p, s).queue == [] && At(p, s).wire == []
    ensures At(p, s).core.counter <= At(p, Other(s)).core.counter
  {
    assert Link(At(p, s), At(p, Other(s)));
    LinkIds(At(p, s), At(p, Other(s)));
    hide Inv, Link;
    assert Pipe(At(p, s)) == [];
  }

  ghost predicate Started(steps: seq<Step>, at: Side, id: nat)
    requires CanRun(INITIAL, steps)
  {
    id in TaskIds(At(Run(INITIAL, steps), at).core)
  }

  // From every orderly state with room, whose handlers are up and whose streams have their tasks, pumps
  // and arrivals lead to one with nothing on its way; what was said on a stream started and not
  // closed is then what was read and its inbox.
  lemma EverythingCanArrive(steps: seq<Step>) returns (longer: seq<Step>)
    requires OrderlyRun(steps) && AllRunning(Run(INITIAL, steps)) && Room(Run(INITIAL, steps))
    ensures Extends(steps, longer) && OrderlyRun(longer)
    ensures var p, p' := Run(INITIAL, steps), Run(INITIAL, longer);
      && AllRunning(p') && Pipe(p'.west) == [] == Pipe(p'.east)
      && SameTalk(p.west, p'.west) && SameTalk(p.east, p'.east)
    ensures forall s, id :: Started(longer, Other(s), id) && id !in Closed(INITIAL, longer, Other(s)) ==>
      AllArrived(At(Run(INITIAL, longer), s), At(Run(INITIAL, longer), Other(s)), id)
  {
    var p := Run(INITIAL, steps);
    RunInv(steps);
    var s := if p.east.core.counter <= p.west.core.counter then West else East;
    AheadCanDrain(p, s);
    var between := EndDrains(steps, s);
    var q := Run(INITIAL, between);
    RunInv(between);
    EmptyIsLevel(q, s);
    LevelDrains(p, q, s);
    longer := EndDrains(between, Other(s));
    assert Other(Other(s)) == s;
    NothingOnItsWay(longer);
  }

  lemma LevelDrains(p: Pair, q: Pair, s: Side)
    requires Inv(p) && Inv(q) && AllRunning(q) && Room(p)
    requires At(p, Other(s)).core.counter <= At(p, s).core.counter
    requires At(q, s).queue == [] && At(q, s).wire == [] && At(q, Other(s)).queue == At(p, Other(s)).queue
    requires Pipe(At(q, Other(s))) == Pipe(At(p, Other(s)))
    requires At(q, s).core.counter == At(p, s).core.counter + Openings(At(p, s).queue)
    ensures CanDrain(q, Other(s))
  {
    assert Other(Other(s)) == s;
    EmptyIsLevel(q, s);
  }

  ghost predicate AllArrived(from: End, to: End, id: nat) {
    id in to.core.inbox && DataOf(from.sent, id) == DataOf(to.taken, id) + to.core.inbox[id]
  }

  lemma NothingOnItsWay(steps: seq<Step>)
    requires OrderlyRun(steps) && AllRunning(Run(INITIAL, steps))
    requires var p := Run(INITIAL, steps); Pipe(p.west) == [] == Pipe(p.east)
    ensures forall s, id :: Started(steps, Other(s), id) && id !in Closed(INITIAL, steps, Other(s)) ==>
      AllArrived(At(Run(INITIAL, steps), s), At(Run(INITIAL, steps), Other(s)), id)
  {
    var p := Run(INITIAL, steps);
    forall s, id | Started(steps, Other(s), id) && id !in Closed(INITIAL, steps, Other(s))
      ensures AllArrived(At(p, s), At(p, Other(s)), id)
    {
      OpenIsStartedNotClosed(steps, Other(s));
      InboxIsProjection(steps, s, id);
    }
  }
}
