/** bin/session_trackerd.py: the sleep-and-check loop that ends silent sessions. */
module Tracker {
  import opened Common
  import opened Sessions

  const PING_OBJECTS_AFTER: Time := 240.0
  const PING_EVERY := 10
  const EXPIRY_OBJECT_AFTER: Time := 300.0

  /** Python's `int` on a float: truncation towards zero. */
  function Trunc(x: real): int {
    if x >= 0.0 then x.Floor else -((-x).Floor)
  }

  /** `getSecondsBeforeNextCheck`, given the smallest last-seen time if there is any. */
  function Wait(oldest: Option<Time>, now: Time): int {
    match oldest
    case None => 240
    case Some(t) =>
      if t + PING_OBJECTS_AFTER <= now then PING_EVERY
      else Trunc(t + PING_OBJECTS_AFTER - now) + 1
  }

  /** The tracker always sleeps at least one second, and never past the moment pinging starts by more than that. */
  lemma WaitBounds(oldest: Option<Time>, now: Time)
    ensures Wait(oldest, now) >= 1
    ensures oldest.Some? && oldest.value + PING_OBJECTS_AFTER > now ==>
              oldest.value + PING_OBJECTS_AFTER < now + Wait(oldest, now) as real
                                               <= oldest.value + PING_OBJECTS_AFTER + 1.0
    ensures oldest.None? ==> Wait(oldest, now) == 240
    ensures oldest.Some? && oldest.value + 240.0 <= now ==> Wait(oldest, now) == 10
  {
  }

  // check_sessions

  predicate IsExpired(s: State, k: Key, cutoff: Time) {
    k in s.lastSeen && s.lastSeen[k] <= cutoff
  }

  /** An expired session none of whose ancestors is expired. */
  predicate IsRoot(s: State, k: Key, cutoff: Time) {
    && IsExpired(s, k, cutoff)
    && (k.IpKey? ==> !IsExpired(s, VlanKey(k.mac, k.vlan), cutoff))
    && (!k.MacKey? ==> !IsExpired(s, MacKey(k.mac), cutoff))
  }

  /** The sessions ended by one check, once each. The source ends IPs, then VLANs, then MACs; every order of the
      same sessions is covered. */
  ghost predicate IsCheckOrder(s: State, cutoff: Time, order: seq<Key>) {
    && (forall k :: k in order <==> IsRoot(s, k, cutoff))
    && Distinct(order)
  }

  /** An IP session is ended at a whole second. */
  function EndTime(k: Key, lastSeen: Time): Time {
    if k.IpKey? then Trunc(lastSeen) as real else lastSeen
  }

  /** The three loops of `check_sessions`, with the times read at the beginning. */
  function EndedAll(s: State, order: seq<Key>, times: map<Key, Time>): (r: State)
    requires Forest(s) && forall k :: k in order ==> k in times
    ensures Forest(r)
  {
    if order == [] then s
    else
      var front, last := order[..|order| - 1], order[|order| - 1];
      var t := EndTime(last, times[last]);
      EndedKeepsForest(EndedAll(s, front, times), last, t);
      Ended(EndedAll(s, front, times), last, t)
  }

  /** No session of the list lies under another one of it. */
  ghost predicate Antichain(order: seq<Key>) {
    forall i, j :: 0 <= i < |order| && 0 <= j < |order| && i != j ==> !Under(order[i], order[j])
  }

  ghost predicate UnderSome(k: Key, order: seq<Key>) {
    exists i :: 0 <= i < |order| && Under(k, order[i])
  }

  /** `s'` holds exactly the sessions of `s` that lie under none of `order`, with their ids and times. */
  ghost predicate Leaves(s: State, s': State, order: seq<Key>) {
    && (forall k :: k in s'.ids <==> k in s.ids && !UnderSome(k, order))
    && (forall k :: k in s'.ids ==> s'.ids[k] == s.ids[k])
    && (forall k :: k in s'.lastSeen <==> k in s.lastSeen && !UnderSome(k, order))
    && (forall k :: k in s'.lastSeen ==> s'.lastSeen[k] == s.lastSeen[k])
  }

  lemma UnderLast(k: Key, order: seq<Key>)
    requires order != []
    ensures UnderSome(k, order) <==> UnderSome(k, order[..|order| - 1]) || Under(k, order[|order| - 1])
  {
    var front := order[..|order| - 1];
    if UnderSome(k, front) {
      var i :| 0 <= i < |front| && Under(k, front[i]);
      assert order[i] == front[i];
    }
  }

  lemma LeavesStep(s: State, s1: State, s2: State, order: seq<Key>)
    requires order != [] && Leaves(s, s1, order[..|order| - 1]) && LosesSubtree(s1, s2, order[|order| - 1])
    ensures Leaves(s, s2, order)
  {
    forall k ensures UnderSome(k, order) <==> UnderSome(k, order[..|order| - 1]) || Under(k, order[|order| - 1]) {
      UnderLast(k, order);
    }
  }

  lemma {:induction false} EndedAllLeaves(s: State, order: seq<Key>, times: map<Key, Time>)
    requires Forest(s) && forall k :: k in order ==> k in times
    ensures Leaves(s, EndedAll(s, order, times), order)
  {
    if order != [] {
      var front, last := order[..|order| - 1], order[|order| - 1];
      var t, s1 := EndTime(last, times[last]), EndedAll(s, front, times);
      EndedAllLeaves(s, front, times);
      EndedKeepsForest(s1, last, t);
      LeavesStep(s, s1, Ended(s1, last, t), order);
    }
  }

  /** The end of a session reads the same while the session and its ancestors stay. */
  lemma EndNoteStable(s: State, s1: State, order: seq<Key>, k: Key, time: Time)
    requires Forest(s) && Forest(s1) && Leaves(s, s1, order) && k in s1.ids
    ensures k in s.ids && EndNote(s1, k, time) == EndNote(s, k, time)
  {
  }

  function EndNotes(s: State, order: seq<Key>, times: map<Key, Time>): seq<Note>
    requires Forest(s) && forall k :: k in order ==> k in times && k in s.ids
  {
    if order == [] then []
    else
      var last := order[|order| - 1];
      EndNotes(s, order[..|order| - 1], times) + [EndNote(s, last, EndTime(last, times[last]))]
  }

  lemma EndedNote(s: State, root: Key, time: Time)
    requires Forest(s) && root in s.ids
    ensures Ended(s, root, time).notes == s.notes + [EndNote(s, root, time)]
  {
  }

  lemma AntichainFront(order: seq<Key>)
    requires Antichain(order) && order != []
    ensures Antichain(order[..|order| - 1]) && !UnderSome(order[|order| - 1], order[..|order| - 1])
  {
    var front := order[..|order| - 1];
    assert forall i :: 0 <= i < |front| ==> front[i] == order[i];
  }

  lemma LastNote(s: State, s1: State, front: seq<Key>, last: Key, t: Time)
    requires Forest(s) && Forest(s1) && Leaves(s, s1, front) && last in s.ids && !UnderSome(last, front)
    ensures Ended(s1, last, t).notes == s1.notes + [EndNote(s, last, t)]
  {
    hide Ended, EndNote, Forest;
    assert last in s1.ids;
    EndNoteStable(s, s1, front, last, t);
    EndedNote(s1, last, t);
  }

  /** Ending an antichain of live sessions publishes one end for each, in order, and nothing else. */
  lemma {:induction false} EndedAllNotes(s: State, order: seq<Key>, times: map<Key, Time>)
    requires Forest(s) && Antichain(order)
    requires forall k :: k in order ==> k in times && k in s.ids
    ensures EndedAll(s, order, times).notes == s.notes + EndNotes(s, order, times)
  {
    if order != [] {
      var front, last := order[..|order| - 1], order[|order| - 1];
      var t, s1 := EndTime(last, times[last]), EndedAll(s, front, times);
      hide Antichain, Ended, EndNote, Forest;
      AntichainFront(order);
      assert last in order;
      EndedAllNotes(s, front, times);
      EndedAllLeaves(s, front, times);
      LastNote(s, s1, front, last, t);
    }
  }

  /** `t` is `time` truncated to a whole second. */
  predicate IsTruncated(t: Time, time: Time) {
    t == t.Floor as real && if time >= 0.0 then t <= time < t + 1.0 else t - 1.0 < time <= t
  }

  /** Every end carries the ids of the session and its parents and the time the session was last seen, for an IP session
      truncated to a whole second. */
  lemma {:induction false} EndNotesAre(s: State, order: seq<Key>, i: nat)
    requires Forest(s) && (forall k :: k in order ==> k in s.lastSeen && k in s.ids) && i < |order|
    ensures var notes := EndNotes(s, order, s.lastSeen);
            && |notes| == |order|
            && match order[i]
               case MacKey(m) => notes[i] == EndMac(m, s.ids[MacKey(m)], s.lastSeen[order[i]])
               case VlanKey(m, v) => notes[i] == EndVlan(m, s.ids[MacKey(m)], v, s.ids[order[i]], s.lastSeen[order[i]])
               case IpKey(m, v, j) =>
                 && notes[i].EndIp? && notes[i] == EndIp(m, s.ids[MacKey(m)], v, s.ids[VlanKey(m, v)], j, s.ids[order[i]], notes[i].time)
                 && IsTruncated(notes[i].time, s.lastSeen[order[i]])
  {
    var front := order[..|order| - 1];
    assert order[i] in order && order[|order| - 1] in order;
    if front != [] {
      EndNotesAre(s, front, if i < |front| then i else 0);
    }
  }

  // Sightings in time order.

  /** A child was never seen after its parent. */
  ghost predicate Ordered(s: State) {
    && (forall m, v :: VlanKey(m, v) in s.lastSeen && MacKey(m) in s.lastSeen ==>
          s.lastSeen[VlanKey(m, v)] <= s.lastSeen[MacKey(m)])
    && (forall m, v, i :: IpKey(m, v, i) in s.lastSeen && VlanKey(m, v) in s.lastSeen ==>
          s.lastSeen[IpKey(m, v, i)] <= s.lastSeen[VlanKey(m, v)])
  }

  ghost predicate SeenBy(s: State, latest: Time) {
    forall k :: k in s.lastSeen ==> s.lastSeen[k] <= latest
  }

  lemma UnderIsOlder(s: State, k: Key, root: Key)
    requires Forest(s) && Ordered(s) && k in s.ids && root in s.ids && Under(k, root)
    ensures s.lastSeen[k] <= s.lastSeen[root]
  {
    match k {
      case MacKey(m) =>
      case VlanKey(m, v) => assert MacKey(m) in s.ids;
      case IpKey(m, v, i) => assert VlanKey(m, v) in s.ids && MacKey(m) in s.ids;
    }
  }

  /** Every expired session is under one that the check ends. */
  lemma ExpiredHasRoot(s: State, k: Key, cutoff: Time, order: seq<Key>)
    requires Forest(s) && IsCheckOrder(s, cutoff, order) && IsExpired(s, k, cutoff)
    ensures UnderSome(k, order)
  {
    var root := if IsExpired(s, MacKey(k.mac), cutoff) then MacKey(k.mac)
                else if k.IpKey? && IsExpired(s, VlanKey(k.mac, k.vlan), cutoff) then VlanKey(k.mac, k.vlan)
                else k;
    assert IsRoot(s, root, cutoff) && Under(k, root);
    var i :| 0 <= i < |order| && order[i] == root;
  }

  lemma CheckOrderIsAntichain(s: State, cutoff: Time, order: seq<Key>)
    requires IsCheckOrder(s, cutoff, order)
    ensures Antichain(order)
  {
    forall i, j | 0 <= i < |order| && 0 <= j < |order| && i != j ensures !Under(order[i], order[j]) {
      assert order[i] in order && order[j] in order;
      assert IsRoot(s, order[i], cutoff) && IsRoot(s, order[j], cutoff);
      assert order[i] != order[j];
    }
  }

  /** With sightings in time order, a check leaves exactly the sessions seen after the cutoff, and publishes
      exactly one end per expired session whose ancestors are not expired, with its last-seen time. */
  lemma CheckOutcome(s: State, cutoff: Time, order: seq<Key>)
    requires Forest(s) && Ordered(s) && IsCheckOrder(s, cutoff, order)
    ensures forall k :: k in order ==> k in s.lastSeen && k in s.ids
    ensures var s' := EndedAll(s, order, s.lastSeen);
            && Forest(s') && Ordered(s')
            && (forall k :: k in s'.lastSeen <==> k in s.lastSeen && s.lastSeen[k] > cutoff)
            && (forall k :: k in s'.lastSeen ==> s'.lastSeen[k] == s.lastSeen[k])
            && s'.notes == s.notes + EndNotes(s, order, s.lastSeen)
  {
    forall k | k in order ensures k in s.lastSeen && k in s.ids {
      assert IsRoot(s, k, cutoff);
    }
    CheckOrderIsAntichain(s, cutoff, order);
    EndedAllLeaves(s, order, s.lastSeen);
    EndedAllNotes(s, order, s.lastSeen);
    forall k | k in s.lastSeen ensures UnderSome(k, order) <==> s.lastSeen[k] <= cutoff {
      if s.lastSeen[k] <= cutoff {
        ExpiredHasRoot(s, k, cutoff, order);
      }
      if UnderSome(k, order) {
        var i :| 0 <= i < |order| && Under(k, order[i]);
        assert order[i] in order && IsRoot(s, order[i], cutoff);
        UnderIsOlder(s, k, order[i]);
      }
    }
  }

  lemma EndedKeepsOrder(s: State, root: Key, time: Time)
    requires Forest(s) && Ordered(s)
    ensures Ordered(Ended(s, root, time))
    ensures forall latest :: SeenBy(s, latest) ==> SeenBy(Ended(s, root, time), latest)
  {
    EndedKeepsForest(s, root, time);
  }

  lemma TouchTimes(s: State, g: Sighting)
    ensures forall k :: k in Touch(s, g).lastSeen ==>
              Touch(s, g).lastSeen[k] == if k in Touched(g) then g.time else s.lastSeen[k]
  {
    hide SeenVlans, SeenIps, Touched;
  }

  lemma TouchKeepsOrder(s: State, g: Sighting)
    requires Forest(s) && Ordered(s) && SeenBy(s, g.time)
    ensures Ordered(Touch(s, g)) && SeenBy(Touch(s, g), g.time)
  {
    var s' := Touch(s, g);
    TouchKeys(s, g);
    TouchTimes(s, g);
    hide Touch;
    forall m, v | VlanKey(m, v) in s'.lastSeen && MacKey(m) in s'.lastSeen
      ensures s'.lastSeen[VlanKey(m, v)] <= s'.lastSeen[MacKey(m)]
    {
    }
  }

  lemma SeenKeepsOrder(s: State, g: Sighting, now: Time)
    requires Forest(s) && Ordered(s) && SeenBy(s, g.time)
    ensures Ordered(Seen(s, g, now)) && SeenBy(Seen(s, g, now), g.time)
    ensures forall k :: k in Seen(s, g, now).lastSeen ==>
              || (k in Touched(g) && Seen(s, g, now).lastSeen[k] == g.time)
              || (k in s.lastSeen && Seen(s, g, now).lastSeen[k] == s.lastSeen[k])
  {
    EndedKeepsOrder(s, MacKey(g.mac), now);
    EndedKeepsForest(s, MacKey(g.mac), now);
    TouchKeepsOrder(Base(s, g, now), g);
  }
}
