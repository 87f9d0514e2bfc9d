/**
 The ping engine that collects coded packets per message id: a cache of packets still too few to
 decode, and the ids already decoded.

 The engine decodes when a packet arrives and one fewer than its coefficient count is cached, and it
 decodes without that packet. What that means for the bytes it returns is proved at the end.
 */
module RlncEngine {
  import opened Elimination
  import opened GF256
  import opened LinearAlgebra
  import opened PartialElimination
  import opened RlncCoder
  import opened Wrappers

  type Packet = EncodedPayload

  datatype State = State(cache: map<string, seq<Packet>>, seen: set<string>)

  const EMPTY := State(map[], {})

  // Handling a packet gives nothing, the bytes decoded, or a panic.
  datatype Answer = Nothing | Answered(bytes: Vec) | Panicked

  // What eliminating and joining these packets gives; nothing if an index leaves a row.
  function Reassembled(list: seq<Packet>): Option<Vec> {
    match Eliminate(CoeffRows(list), PayloadRows(list), |list|)
    case None => None
    case Some((_, data)) => Some(Concat(data))
  }

  // The cached packets leave the cache before they are decoded and the id counts as seen only after.
  // Subtracting one from a coefficient count of zero panics too.
  function Handle(s: State, p: Packet): (r: (State, Answer)) {
    if p.id in s.seen then (s, Nothing)
    else if p.id !in s.cache then (s.(cache := s.cache[p.id := [p]]), Nothing)
    else if |p.coeffs| == 0 then (s, Panicked)
    else if |s.cache[p.id]| == |p.coeffs| - 1 then
      match Reassembled(s.cache[p.id])
      case None => (s.(cache := s.cache - {p.id}), Panicked)
      case Some(bytes) => (State(s.cache - {p.id}, s.seen + {p.id}), Answered(bytes))
    else (s.(cache := s.cache[p.id := s.cache[p.id] + [p]]), Nothing)
  }

  class PingRLNC {
    var cache: map<string, seq<Packet>>
    var seen: set<string>

    ghost function Abstract(): State
      reads this
    {
      State(cache, seen)
    }

    constructor ()
      ensures Abstract() == EMPTY
    {
      cache := map[];
      seen := {};
    }

    method HandleIncoming(payload: Packet) returns (answer: Answer)
      modifies this
      ensures (Abstract(), answer) == Handle(old(Abstract()), payload)
    {
      if payload.id in seen {
        return Nothing;
      }
      if payload.id !in cache {
        cache := cache[payload.id := [payload]];
      } else if |payload.coeffs| == 0 {
        return Panicked;
      } else if |cache[payload.id]| == |payload.coeffs| - 1 {
        var encoded := cache[payload.id];
        cache := cache - {payload.id};
        var reconstructed := Reassemble(encoded);
        if reconstructed.None? {
          return Panicked;
        }
        seen := seen + {payload.id};
        return Answered(reconstructed.value);
      } else {
        cache := cache[payload.id := cache[payload.id] + [payload]];
      }
      return Nothing;
    }
  }

  method Reassemble(list: seq<Packet>) returns (result: Option<Vec>)
    ensures result == Reassembled(list)
  {
    var matrix, data := BuildLinearSystem(list);
    var ok := GaussianElimination(matrix, data);
    if !ok {
      return None;
    }
    var bytes := Reconstruct(data[..]);
    return Some(bytes);
  }

  // ---------- runs ----------

  // The states and answers of an engine fed `trace`, one packet after the other.
  ghost predicate IsRun(trace: seq<Packet>, states: seq<State>, answers: seq<Answer>) {
    && |states| == |trace| + 1 && |answers| == |trace|
    && states[0] == EMPTY
    && forall i :: 0 <= i < |trace| ==> (states[i + 1], answers[i]) == Handle(states[i], trace[i])
  }

  // The packets of one message, in arrival order.
  function Of(trace: seq<Packet>, id: string): seq<Packet> {
    if trace == [] then []
    else
      var before, last := trace[..|trace| - 1], trace[|trace| - 1];
      if last.id == id then Of(before, id) + [last] else Of(before, id)
  }

  lemma OfStep(trace: seq<Packet>, id: string, i: nat)
    requires i < |trace|
    ensures Of(trace[..i + 1], id) == if trace[i].id == id then Of(trace[..i], id) + [trace[i]] else Of(trace[..i], id)
  {
    assert trace[..i + 1][..i] == trace[..i];
  }

  lemma HandleKeepsDisjoint(s: State, p: Packet)
    requires s.cache.Keys !! s.seen
    ensures Handle(s, p).0.cache.Keys !! Handle(s, p).0.seen && s.seen <= Handle(s, p).0.seen
  {
    var s' := Handle(s, p).0;
    forall id | id in s'.seen ensures id !in s'.cache {}
  }

  // Whatever arrives, an id is never both cached and seen, and a seen id stays seen.
  lemma {:induction false} CacheAndSeenDisjoint(
      trace: seq<Packet>, states: seq<State>, answers: seq<Answer>, i: nat, j: nat)
    requires IsRun(trace, states, answers) && i <= j < |states|
    ensures states[j].cache.Keys !! states[j].seen
    ensures states[i].seen <= states[j].seen
    decreases j
  {
    if j > 0 {
      CacheAndSeenDisjoint(trace, states, answers, if i < j then i else j - 1, j - 1);
      assert (states[j - 1 + 1], answers[j - 1]) == Handle(states[j - 1], trace[j - 1]);
      HandleKeepsDisjoint(states[j - 1], trace[j - 1]);
    }
  }

  // Whatever arrives, no message is answered twice.
  lemma AnsweredAtMostOnce(trace: seq<Packet>, states: seq<State>, answers: seq<Answer>, i: nat, j: nat)
    requires IsRun(trace, states, answers) && i < j < |trace|
    requires answers[i].Answered? && answers[j].Answered?
    ensures trace[i].id != trace[j].id
  {
    hide Reassembled;
    CacheAndSeenDisjoint(trace, states, answers, i + 1, j);
    assert (states[i + 1], answers[i]) == Handle(states[i], trace[i]);
    assert (states[j + 1], answers[j]) == Handle(states[j], trace[j]);
  }

  // In every run, the ids seen are those of the messages answered.
  lemma {:induction false} SeenIffAnswered(
      trace: seq<Packet>, states: seq<State>, answers: seq<Answer>, i: nat, id: string)
    requires IsRun(trace, states, answers) && i <= |trace|
    ensures id in states[i].seen <==> exists j :: 0 <= j < i && trace[j].id == id && answers[j].Answered?
    decreases i
  {
    hide Reassembled;
    if i > 0 {
      SeenIffAnswered(trace, states, answers, i - 1, id);
      assert (states[i - 1 + 1], answers[i - 1]) == Handle(states[i - 1], trace[i - 1]);
      assert id in states[i].seen <==> id in states[i - 1].seen || (trace[i - 1].id == id && answers[i - 1].Answered?);
    }
  }

  // In every run, as long as no packet of a message has made the engine panic: what is cached for it is all
  // its packets, until it is answered.
  lemma {:induction false} CachedIsArrived(
      trace: seq<Packet>, states: seq<State>, answers: seq<Answer>, i: nat, id: string)
    requires IsRun(trace, states, answers) && i <= |trace|
    requires forall j :: 0 <= j < i && trace[j].id == id ==> answers[j] != Panicked
    ensures var q := Of(trace[..i], id);
      id in states[i].seen || (if q == [] then id !in states[i].cache
                               else id in states[i].cache && states[i].cache[id] == q)
    decreases i
  {
    hide Reassembled;
    if i > 0 {
      CachedIsArrived(trace, states, answers, i - 1, id);
      OfStep(trace, id, i - 1);
      assert (states[i - 1 + 1], answers[i - 1]) == Handle(states[i - 1], trace[i - 1]);
    }
  }

  // So, of packets whatever: the packet at `i` sets off decoding exactly when its message is not answered
  // yet and one packet fewer of it than this one has coefficients has arrived, and at least one has.
  lemma DecodesIff(trace: seq<Packet>, states: seq<State>, answers: seq<Answer>, i: nat)
    requires IsRun(trace, states, answers) && i < |trace| && |trace[i].coeffs| > 0
    requires forall j :: 0 <= j < i && trace[j].id == trace[i].id ==> answers[j] != Panicked
    ensures var id, q := trace[i].id, Of(trace[..i], trace[i].id);
      var answered := exists j :: 0 <= j < i && trace[j].id == id && answers[j].Answered?;
      && (answers[i] != Nothing <==> !answered && q != [] && |q| + 1 == |trace[i].coeffs|)
      && (answers[i] == Panicked ==> Reassembled(q) == None)
      && (answers[i].Answered? ==> Reassembled(q) == Some(answers[i].bytes))
  {
    CachedIsArrived(trace, states, answers, i, trace[i].id);
    SeenIffAnswered(trace, states, answers, i, trace[i].id);
    assert (states[i + 1], answers[i]) == Handle(states[i], trace[i]);
    CacheAndSeenDisjoint(trace, states, answers, i, i);
    hide Reassembled, Of;
  }

  // A panic while decoding loses the message's packets without marking it seen; a packet without
  // coefficients changes nothing. Other messages are not touched.
  lemma PanicLeaves(s: State, p: Packet)
    requires Handle(s, p).1 == Panicked
    ensures var s' := Handle(s, p).0;
      && s'.seen == s.seen
      && (p.id in s'.cache <==> |p.coeffs| == 0)
      && forall id :: id != p.id || |p.coeffs| == 0 ==>
           (id in s'.cache <==> id in s.cache) && (id in s.cache ==> s'.cache[id] == s.cache[id])
  {
    hide Reassembled;
  }

  // All packets of the message carry `n` coefficients and `w` data bytes.
  ghost predicate Regular(trace: seq<Packet>, id: string, n: nat, w: nat) {
    forall i :: 0 <= i < |trace| && trace[i].id == id ==> |trace[i].coeffs| == n && |trace[i].payload| == w
  }

  // Where a message stands after its packets `q`.
  ghost predicate Tracks(s: State, id: string, q: seq<Packet>, n: nat) {
    if q == [] then id !in s.cache && id !in s.seen
    else if n == 1 || |q| < n then id in s.cache && s.cache[id] == q && id !in s.seen
    else id !in s.cache && id in s.seen
  }

  lemma {:induction false} OfRegular(trace: seq<Packet>, id: string, n: nat, w: nat)
    requires Regular(trace, id, n, w)
    ensures forall k :: 0 <= k < |Of(trace, id)| ==>
      |Of(trace, id)[k].coeffs| == n && |Of(trace, id)[k].payload| == w
  {
    if trace != [] { OfRegular(trace[..|trace| - 1], id, n, w); }
  }

  // Packets that agree on coefficient count and length are never too narrow for each other.
  lemma RegularDecodes(list: seq<Packet>, w: nat)
    requires forall k :: 0 <= k < |list| ==> |list[k].coeffs| >= |list| && |list[k].payload| == w
    ensures var c, data := CoeffRows(list), PayloadRows(list);
      Solvable(c, data, w) && Reassembled(list) == Some(Concat(Decoded(c, data, w)))
  {
    EliminateOnSolvable(CoeffRows(list), PayloadRows(list), |list|, w);
  }

  // One more packet of the message, after the packets `q`.
  lemma HandleTracks(s: State, p: Packet, q: seq<Packet>, n: nat, w: nat)
    requires Tracks(s, p.id, q, n) && n > 0 && |p.coeffs| == n
    requires forall k :: 0 <= k < |q| ==> |q[k].coeffs| == n && |q[k].payload| == w
    ensures var (s', answer) := Handle(s, p);
      && Tracks(s', p.id, q + [p], n)
      && (if n >= 2 && |q| == n - 1 then Reassembled(q).Some? && answer == Answered(Reassembled(q).value)
          else answer == Nothing)
  {
    if |q| < n { RegularDecodes(q, w); }
    hide Reassembled;
  }

  lemma {:induction false} MessageTracked(
      trace: seq<Packet>, states: seq<State>, answers: seq<Answer>, id: string, n: nat, w: nat, i: nat)
    requires IsRun(trace, states, answers) && Regular(trace, id, n, w) && n > 0
    requires i <= |trace|
    ensures Tracks(states[i], id, Of(trace[..i], id), n)
  {
    hide Reassembled;
    if i > 0 {
      MessageTracked(trace, states, answers, id, n, w, i - 1);
      OfStep(trace, id, i - 1);
      assert (states[i - 1 + 1], answers[i - 1]) == Handle(states[i - 1], trace[i - 1]);
      if trace[i - 1].id == id {
        OfRegular(trace[..i - 1], id, n, w);
        HandleTracks(states[i - 1], trace[i - 1], Of(trace[..i - 1], id), n, w);
      }
    }
  }

  // A message is cached while fewer than n, answered exactly on its n-th packet with the decode of the
  // n - 1 before it, and ignored ever after. With one coefficient it is never answered, and no packet of
  // it makes the engine panic.
  lemma MessageLifecycle(
      trace: seq<Packet>, states: seq<State>, answers: seq<Answer>, id: string, n: nat, w: nat, i: nat)
    requires IsRun(trace, states, answers) && Regular(trace, id, n, w) && n > 0
    requires i < |trace| && trace[i].id == id
    ensures var q := Of(trace[..i], id);
      && Tracks(states[i], id, q, n)
      && (if n >= 2 && |q| == n - 1 then Reassembled(q).Some? && answers[i] == Answered(Reassembled(q).value)
          else answers[i] == Nothing)
  {
    MessageTracked(trace, states, answers, id, n, w, i);
    OfRegular(trace[..i], id, n, w);
    assert (states[i + 1], answers[i]) == Handle(states[i], trace[i]);
    hide Reassembled, Handle, Tracks;
    HandleTracks(states[i], trace[i], Of(trace[..i], id), n, w);
  }

  // Packets whose leading coefficients are independent make decoding panic exactly when they differ in
  // length.
  lemma DecodePanicsIff(list: seq<Packet>)
    requires Square(CoeffRows(list)) && TrivialKernel(CoeffRows(list))
    ensures Reassembled(list).None? <==>
      exists j, k :: 0 <= j < |list| && 0 <= k < |list| && |list[j].payload| != |list[k].payload|
  {
    var data := PayloadRows(list);
    GetsThroughIffUniform(CoeffRows(list), data);
    hide Eliminate, TrivialKernel, Square;
    if forall j, k :: 0 <= j < |list| && 0 <= k < |list| ==> |list[j].payload| == |list[k].payload| {
      assert Uniform(data, if list == [] then 0 else |data[0]|);
    } else {
      var j, k :| 0 <= j < |list| && 0 <= k < |list| && |list[j].payload| != |list[k].payload|;
      assert |data[j]| != |data[k]|;
    }
  }

  // ---------- what the answer is worth ----------

  lemma {:induction false} ConcatLength(rows: Matrix, w: nat)
    requires Uniform(rows, w)
    ensures |Concat(rows)| == |rows| * w
  {
    if rows != [] {
      ConcatLength(rows[1..], w);
      assert |rows| * w == w + |rows[1..]| * w;
    }
  }

  // Whatever the draws, the bytes decoded from one packet too few are short by a whole chunk.
  lemma OneShortIsTooShort(payload: Vec, list: seq<Packet>)
    requires |Packets(payload, DEFAULT_CHUNK_SIZE)| == |list| + 1
    requires forall k :: 0 <= k < |list| ==>
      |list[k].coeffs| == |list| + 1 && |list[k].payload| == DEFAULT_CHUNK_SIZE
    ensures Reassembled(list).Some? && |Reassembled(list).value| < |payload|
  {
    var c, data := CoeffRows(list), PayloadRows(list);
    RegularDecodes(list, DEFAULT_CHUNK_SIZE);
    ConcatLength(Decoded(c, data, DEFAULT_CHUNK_SIZE), DEFAULT_CHUNK_SIZE);
    PacketsCount(payload, DEFAULT_CHUNK_SIZE);
  }

  // In every run, whatever other packets arrive in between: no packet coded from a payload is ever
  // answered with as many bytes as the payload has.
  lemma EngineNeverRecovers(
      payload: Vec, trace: seq<Packet>, states: seq<State>, answers: seq<Answer>, id: string, i: nat)
    requires payload != [] && IsRun(trace, states, answers)
    requires Regular(trace, id, |Packets(payload, DEFAULT_CHUNK_SIZE)|, DEFAULT_CHUNK_SIZE)
    requires i < |trace| && trace[i].id == id
    ensures answers[i].Answered? ==> |answers[i].bytes| < |payload|
  {
    hide Reassembled;
    var n := |Packets(payload, DEFAULT_CHUNK_SIZE)|;
    MessageLifecycle(trace, states, answers, id, n, DEFAULT_CHUNK_SIZE, i);
    if answers[i].Answered? {
      OfRegular(trace[..i], id, n, DEFAULT_CHUNK_SIZE);
      OneShortIsTooShort(payload, Of(trace[..i], id));
    }
  }
}
