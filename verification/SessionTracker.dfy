/** The `SessionTracker` of bin/session_trackerd.py as code on the session store. */
module SessionTracker {
  import opened Common
  import opened Sessions
  import opened SessionStore
  import opened Tracker
  import opened TrackerRuns

  /** The sessions not seen after `cutoff`, once each. */
  method ExpiredObjects(s: State, cutoff: Time) returns (keys: seq<Key>)
    ensures Distinct(keys) && forall k :: k in keys <==> IsExpired(s, k, cutoff)
  {
    keys := [];
    var todo := set k | k in s.lastSeen && s.lastSeen[k] <= cutoff;
    ghost var all := todo;
    while todo != {}
      invariant todo <= all && Distinct(keys) && forall k :: k in keys <==> k in all - todo
      decreases todo
    {
      var k :| k in todo;
      assert k !in keys;
      keys := keys + [k];
      todo := todo - {k};
    }
  }

  /** The first loop of `check_sessions`: the expired objects by level. */
  method Partition(keys: seq<Key>) returns (ips: seq<Key>, vlans: seq<Key>, macs: seq<Key>)
    requires Distinct(keys)
    ensures Distinct(ips) && Distinct(vlans) && Distinct(macs)
    ensures forall k :: k in ips <==> k in keys && k.IpKey?
    ensures forall k :: k in vlans <==> k in keys && k.VlanKey?
    ensures forall k :: k in macs <==> k in keys && k.MacKey?
  {
    ips, vlans, macs := [], [], [];
    for i := 0 to |keys|
      invariant Distinct(ips) && Distinct(vlans) && Distinct(macs)
      invariant forall k :: k in ips <==> k in keys[..i] && k.IpKey?
      invariant forall k :: k in vlans <==> k in keys[..i] && k.VlanKey?
      invariant forall k :: k in macs <==> k in keys[..i] && k.MacKey?
    {
      assert keys[i] !in keys[..i];
      match keys[i] {
        case IpKey(_, _, _) => ips := ips + [keys[i]];
        case VlanKey(_, _) => vlans := vlans + [keys[i]];
        case MacKey(_) => macs := macs + [keys[i]];
      }
    }
  }

  /** Not under an expired object of a higher level. */
  predicate Spared(k: Key, vlans: seq<Key>, macs: seq<Key>) {
    match k
    case MacKey(_) => true
    case VlanKey(m, _) => MacKey(m) !in macs
    case IpKey(m, v, _) => VlanKey(m, v) !in vlans && MacKey(m) !in macs
  }

  lemma RootsAreListed(s: State, cutoff: Time, expired: seq<Key>, ips: seq<Key>, vlans: seq<Key>, macs: seq<Key>,
                       order: seq<Key>)
    requires Distinct(order) && forall k :: k in expired <==> IsExpired(s, k, cutoff)
    requires forall k :: k in ips <==> k in expired && k.IpKey?
    requires forall k :: k in vlans <==> k in expired && k.VlanKey?
    requires forall k :: k in macs <==> k in expired && k.MacKey?
    requires forall k :: k in order <==> (k in ips || k in vlans || k in macs) && Spared(k, vlans, macs)
    ensures IsCheckOrder(s, cutoff, order)
  {
    forall k ensures k in order <==> IsRoot(s, k, cutoff) {
    }
  }

  /** The objects of a list that are spared. */
  function Spare(list: seq<Key>, vlans: seq<Key>, macs: seq<Key>): seq<Key> {
    if list == [] then []
    else
      var k := list[|list| - 1];
      Spare(list[..|list| - 1], vlans, macs) + if Spared(k, vlans, macs) then [k] else []
  }

  lemma {:induction false} SpareHas(list: seq<Key>, vlans: seq<Key>, macs: seq<Key>)
    ensures forall k :: k in Spare(list, vlans, macs) <==> k in list && Spared(k, vlans, macs)
    ensures Distinct(list) ==> Distinct(Spare(list, vlans, macs))
  {
    if list != [] {
      var front, last := list[..|list| - 1], list[|list| - 1];
      assert list == front + [last];
      SpareHas(front, vlans, macs);
    }
  }

  lemma JoinDistinct(a: seq<Key>, b: seq<Key>)
    requires Distinct(a) && Distinct(b) && forall k :: k in b ==> k !in a
    ensures Distinct(a + b)
  {
    var c := a + b;
    forall i, j | 0 <= i < j < |c| ensures c[i] != c[j] {
      if i < |a| <= j {
        assert c[j] in b && c[i] in a;
      }
    }
  }

  lemma EndedAllOne(s: State, order: seq<Key>, k: Key, times: map<Key, Time>)
    requires Forest(s) && k in times && forall j :: j in order ==> j in times
    ensures EndedAll(s, order + [k], times) == Ended(EndedAll(s, order, times), k, EndTime(k, times[k]))
  {
    assert (order + [k])[..|order|] == order;
  }

  class Daemon {
    const store: Store

    constructor (store: Store)
      ensures this.store == store
    {
      this.store := store;
    }

    /** One of the three ending loops: it continues from a store where `done` has been ended already. */
    method EndEach(list: seq<Key>, vlans: seq<Key>, macs: seq<Key>, times: map<Key, Time>,
                   ghost s0: State, ghost done: seq<Key>)
      returns (ghost order: seq<Key>)
      requires store.Valid() && Forest(s0)
      requires (forall k :: k in done ==> k in times) && store.redis == EndedAll(s0, done, times)
      requires forall k :: k in list ==> k in times && k !in done
      requires Distinct(list) && Distinct(done)
      modifies store
      ensures store.Valid()
      ensures (forall k :: k in order ==> k in times) && store.redis == EndedAll(s0, order, times)
      ensures Distinct(order)
      ensures forall k :: k in order <==> k in done || (k in list && Spared(k, vlans, macs))
    {
      hide Forest, Ended, EndedAll, Distinct;
      order := done;
      assert done + Spare(list[..0], vlans, macs) == done;
      for i := 0 to |list|
        invariant store.Valid() && order == done + Spare(list[..i], vlans, macs)
        invariant (forall k :: k in order ==> k in times) && store.redis == EndedAll(s0, order, times)
      {
        var k := list[i];
        assert k in list && list[..i + 1][..i] == list[..i];
        if Spared(k, vlans, macs) {
          EndedAllOne(s0, order, k, times);
          store.EndKey(k, EndTime(k, times[k]));
          order := order + [k];
        }
      }
      assert list[..|list|] == list;
      SpareHas(list, vlans, macs);
      JoinDistinct(done, Spare(list, vlans, macs));
    }

    /** `check_sessions` at the time `now`. */
    method CheckSessions(now: Time) returns (ghost order: seq<Key>)
      requires store.Valid()
      modifies store
      ensures store.Valid()
      ensures IsCheckOrder(old(store.redis), now - EXPIRY_OBJECT_AFTER, order)
      ensures forall k :: k in order ==> k in old(store.redis).lastSeen
      ensures store.redis == EndedAll(old(store.redis), order, old(store.redis).lastSeen)
    {
      ghost var s0 := store.redis;
      var cutoff := now - EXPIRY_OBJECT_AFTER;
      var times := store.redis.lastSeen;
      assert s0 == EndedAll(s0, [], times);
      hide EndedAll, Forest, Distinct, Spared;
      var expired := ExpiredObjects(store.redis, cutoff);
      var ips, vlans, macs := Partition(expired);
      order := EndEach(ips, vlans, macs, times, s0, []);
      order := EndEach(vlans, vlans, macs, times, s0, order);
      order := EndEach(macs, vlans, macs, times, s0, order);
      RootsAreListed(s0, cutoff, expired, ips, vlans, macs, order);
    }

    /** `getSecondsBeforeNextCheck`. */
    method SecondsBeforeNextCheck(now: Time) returns (seconds: int)
      ensures seconds == Wait(Oldest(store.redis.lastSeen), now)
      ensures seconds >= 1
    {
      var oldest: Option<Time> := None;
      var todo := store.redis.lastSeen.Keys;
      while todo != {}
        invariant todo <= store.redis.lastSeen.Keys
        invariant oldest.None? <==> todo == store.redis.lastSeen.Keys
        invariant oldest.Some? ==>
            && (exists k :: k in store.redis.lastSeen && store.redis.lastSeen[k] == oldest.value)
            && forall k :: k in store.redis.lastSeen.Keys - todo ==> oldest.value <= store.redis.lastSeen[k]
        decreases todo
      {
        var k :| k in todo;
        if oldest.None? || store.redis.lastSeen[k] < oldest.value {
          oldest := Some(store.redis.lastSeen[k]);
        }
        todo := todo - {k};
      }
      assert oldest == Oldest(store.redis.lastSeen);
      WaitBounds(oldest, now);
      seconds := Wait(oldest, now);
    }

    /** One turn of `run`: the store and the next waking time are those of the timed model. */
    method Turn(now: Time, ghost latest: Time) returns (wake: Time, ghost order: seq<Key>)
      requires store.Valid()
      modifies store
      ensures store.Valid() && IsCheckOrder(old(store.redis), now - EXPIRY_OBJECT_AFTER, order)
      ensures forall k :: k in order ==> k in old(store.redis).lastSeen
      ensures Timed(store.redis, now, now, wake, latest) == Checked(old(store.redis), now, latest, order)
    {
      order := CheckSessions(now);
      var seconds := SecondsBeforeNextCheck(now);
      wake := if seconds > 0 then now + seconds as real else now;
    }
  }
}
