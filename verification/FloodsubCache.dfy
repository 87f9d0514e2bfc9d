/**
 Runs of the seen-cache of one node: checks of message keys and cleanups, in any order.
 */
module FloodsubCache {
  import opened Floodsub

  datatype Event = Check(key: Key, now: nat) | Cleanup(now: nat)

  type Cache = map<Key, nat>

  function After(c: Cache, e: Event): Cache {
    match e
    case Check(key, now) => Checked(c, key, now)
    case Cleanup(now) => Cleaned(c, now)
  }

  function CacheAfter(events: seq<Event>): Cache {
    if events == [] then map[] else After(CacheAfter(events[..|events| - 1]), events[|events| - 1])
  }

  // The check at `i` lets a message with this key through.
  ghost predicate Accepted(events: seq<Event>, i: nat, key: Key) {
    i < |events| && events[i].Check? && events[i].key == key && key !in CacheAfter(events[..i])
  }

  // No cleanup between the two comes more than 120 seconds after the first.
  ghost predicate Fresh(events: seq<Event>, i: nat, j: nat)
    requires i < |events| && j <= |events|
  {
    forall c :: i < c < j && events[c].Cleanup? ==> events[c].now <= events[i].now + 120
  }

  lemma CacheStep(events: seq<Event>, j: nat)
    requires j < |events|
    ensures CacheAfter(events[..j + 1]) == After(CacheAfter(events[..j]), events[j])
  {
    assert events[..j + 1][..j] == events[..j];
  }

  lemma {:induction false} AcceptedStays(events: seq<Event>, i: nat, j: nat, key: Key)
    requires Accepted(events, i, key) && i < j <= |events| && Fresh(events, i, j)
    ensures key in CacheAfter(events[..j]) && CacheAfter(events[..j])[key] == events[i].now
    decreases j
  {
    CacheStep(events, j - 1);
    if i < j - 1 { AcceptedStays(events, i, j - 1, key); }
  }

  lemma {:induction false} CachedWasAccepted(events: seq<Event>, j: nat, key: Key) returns (i: nat)
    requires j <= |events| && key in CacheAfter(events[..j])
    ensures i < j && Accepted(events, i, key) && Fresh(events, i, j)
    decreases j
  {
    CacheStep(events, j - 1);
    if key in CacheAfter(events[..j - 1]) {
      i := CachedWasAccepted(events, j - 1, key);
      AcceptedStays(events, i, j - 1, key);
    } else {
      i := j - 1;
    }
  }

  // A key is suppressed exactly while some earlier acceptance of it has not been cleaned up.
  lemma SuppressedIff(events: seq<Event>, j: nat, key: Key)
    requires j <= |events|
    ensures key in CacheAfter(events[..j]) <==>
      exists i :: 0 <= i < j && Accepted(events, i, key) && Fresh(events, i, j)
  {
    if key in CacheAfter(events[..j]) {
      var i := CachedWasAccepted(events, j, key);
    }
    forall i | 0 <= i < j && Accepted(events, i, key) && Fresh(events, i, j)
      ensures key in CacheAfter(events[..j])
    {
      AcceptedStays(events, i, j, key);
    }
  }

  ghost predicate ClockNeverBack(events: seq<Event>) {
    forall i, j :: 0 <= i <= j < |events| ==> events[i].now <= events[j].now
  }

  // After an acceptance and a cleanup more than 120 seconds later, the next check of the key is accepted.
  lemma ExpiredIsAccepted(events: seq<Event>, i: nat, c: nat, j: nat, key: Key)
    requires Accepted(events, i, key) && i < c < j < |events|
    requires events[c].Cleanup? && events[c].now > events[i].now + 120
    requires events[j].Check? && events[j].key == key
    requires forall k :: i < k < j ==> !Accepted(events, k, key)
    ensures Accepted(events, j, key)
  {
    if key in CacheAfter(events[..j]) {
      var k := CachedWasAccepted(events, j, key);
      if k < i { AcceptedStays(events, k, i, key); }
      assert false;
    }
  }

  // Two acceptances of one key are more than 120 seconds apart.
  lemma AcceptancesFarApart(events: seq<Event>, i: nat, j: nat, key: Key)
    requires ClockNeverBack(events) && i < j
    requires Accepted(events, i, key) && Accepted(events, j, key)
    ensures events[j].now > events[i].now + 120
  {
    if Fresh(events, i, j) { AcceptedStays(events, i, j, key); }
    var c :| i < c < j && events[c].Cleanup? && events[c].now > events[i].now + 120;
    assert events[c].now <= events[j].now;
  }
}
