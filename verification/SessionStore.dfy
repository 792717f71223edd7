/** elan/session.py as operations on a mutable store. */
module SessionStore {
  import opened Common
  import opened Sessions
  import opened R = SessionRuns
  import opened SessionEffects

  function KeyOf(mac: Mac, vlan: Option<Vlan>, ip: Option<Ip>): Key {
    if vlan.None? then MacKey(mac) else if ip.None? then VlanKey(mac, vlan.value) else IpKey(mac, vlan.value, ip.value)
  }

  /** One update after the other, as one union. */
  lemma StampsAdd(s: State, g: Sighting)
    ensures var all, m := s.lastSeen + Uniform(Touched(g), g.time), MacKey(g.mac);
            match (g.vlan, g.ip)
            case (None, _) => all == s.lastSeen[m := g.time] && Touched(g) == {m}
            case (Some(v), None) =>
              all == s.lastSeen[m := g.time][VlanKey(g.mac, v) := g.time] && Touched(g) == {m, VlanKey(g.mac, v)}
            case (Some(v), Some(i)) =>
              && all == s.lastSeen[m := g.time][VlanKey(g.mac, v) := g.time][IpKey(g.mac, v, i) := g.time]
              && Touched(g) == {m, VlanKey(g.mac, v), IpKey(g.mac, v, i)}
  {
  }

  /** The content of Redis, updated in place, and the messages published so far. */
  class Store {
    var redis: State

    ghost predicate Valid()
      reads this
    {
      Forest(redis)
    }

    constructor ()
      ensures Valid() && redis == EMPTY
    {
      redis := EMPTY;
    }

    /** The inner loop of `end`: a VLAN session and every IP in its IP set. */
    method ListVlan(mac: Mac, vlan: Vlan) returns (gone: set<Key>)
      ensures gone == Listed(redis, VlanKey(mac, vlan))
    {
      gone := {VlanKey(mac, vlan)};
      var todo := set q | q in redis.ips && q.0 == mac && q.1 == vlan :: q.2;
      ghost var all := todo;
      while todo != {}
        invariant todo <= all
        invariant gone == {VlanKey(mac, vlan)} + (set i | i in all - todo :: IpKey(mac, vlan, i))
        decreases todo
      {
        var i :| i in todo;
        gone := gone + {IpKey(mac, vlan, i)};
        todo := todo - {i};
      }
    }

    /** The outer loop of `end` for a whole MAC. */
    method ListMac(mac: Mac) returns (gone: set<Key>)
      ensures gone == Listed(redis, MacKey(mac))
    {
      gone := {MacKey(mac)};
      var todo := set p | p in redis.vlans && p.0 == mac :: p.1;
      ghost var all := todo;
      while todo != {}
        invariant todo <= all
        invariant forall k :: k in gone <==>
                    || k == MacKey(mac)
                    || (k.VlanKey? && k.mac == mac && k.vlan in all - todo)
                    || (k.IpKey? && k.mac == mac && k.vlan in all - todo && (mac, k.vlan, k.ip) in redis.ips)
        decreases todo
      {
        var v :| v in todo;
        var part := ListVlan(mac, v);
        gone := gone + part;
        todo := todo - {v};
      }
      assert forall v :: v in all <==> (mac, v) in redis.vlans;
    }

    /** The index sets in the loop of `end`: each VLAN leaves the VLAN set of the MAC, and its IP set is deleted. */
    method DropIndexes(mac: Mac, vlans: set<Vlan>)
      modifies this
      ensures redis == old(redis).(vlans := (set p | p in old(redis).vlans && !(p.0 == mac && p.1 in vlans)),
                                   ips := (set q | q in old(redis).ips && !(q.0 == mac && q.1 in vlans)))
    {
      ghost var s0 := redis;
      var todo := vlans;
      while todo != {}
        invariant todo <= vlans && redis == s0.(vlans := redis.vlans, ips := redis.ips)
        invariant redis.vlans == set p | p in s0.vlans && !(p.0 == mac && p.1 in vlans - todo)
        invariant redis.ips == set q | q in s0.ips && !(q.0 == mac && q.1 in vlans - todo)
        decreases todo
      {
        var v :| v in todo;
        redis := redis.(vlans := redis.vlans - {(mac, v)},
                        ips := (set q | q in redis.ips && !(q.0 == mac && q.1 == v)));
        todo := todo - {v};
      }
    }

    /** The first pipeline of `end`. */
    method CutSession(root: Key)
      modifies this
      ensures redis == Cut(old(redis), root)
    {
      hide Listed;
      var gone;
      match root {
        case MacKey(mac) =>
          gone := ListMac(mac);
          var vlans := set p | p in redis.vlans && p.0 == mac :: p.1;
          DropIndexes(mac, vlans);
        case VlanKey(mac, vlan) =>
          gone := ListVlan(mac, vlan);
          DropIndexes(mac, {vlan});
        case IpKey(_, _, _) =>
          OneListed(redis, root);
          gone := {root};
      }
      redis := redis.(lastSeen := redis.lastSeen - gone, ids := redis.ids - gone);
    }

    /** The second pipeline of `end`, and `remove_till_disconnect_authentication_session`. */
    method CloseMac(mac: Mac)
      modifies this
      ensures redis == Disconnect(old(redis), mac)
    {
      if mac in redis.ports {
        redis := redis.(portMacs := redis.portMacs - {(PortKeyOf(redis.ports[mac]), mac)});
      }
      redis := redis.(ports := redis.ports - {mac});
      DropAuths(mac, (a: Auth) => a.tillDisconnect);
    }

    /** The loop that removes authentications of one MAC. */
    method DropAuths(mac: Mac, drop: Auth -> bool)
      modifies this
      ensures redis == old(redis).(auths := set a | a in old(redis).auths && !(a.0 == mac && drop(a.1)))
    {
      ghost var s0 := redis;
      var todo := set a | a in redis.auths && a.0 == mac;
      ghost var all := todo;
      while todo != {}
        invariant todo <= all && redis == s0.(auths := redis.auths)
        invariant redis.auths == set a | a in s0.auths && !(a in all - todo && drop(a.1))
        decreases todo
      {
        var a :| a in todo;
        if drop(a.1) {
          redis := redis.(auths := redis.auths - {a});
        }
        todo := todo - {a};
      }
    }

    /** `remove_expired_authentication_session`. */
    method ExpireAuths(mac: Mac, date: Time)
      modifies this
      ensures redis == AuthExpired(old(redis), mac, date)
    {
      DropAuths(mac, (a: Auth) => a.till.Some? && a.till.value <= date);
    }

    /** `remove_authentication_sessions_by_source`. */
    method RemoveAuths(mac: Mac, source: string)
      modifies this
      ensures redis == AuthRemoved(old(redis), mac, source)
    {
      DropAuths(mac, (a: Auth) => a.source == source);
    }

    /** `add_authentication_session`. */
    method AddAuth(mac: Mac, source: string, given: Option<bool>, till: Option<Time>, details: map<string, string>, now: Time)
      requires Valid()
      modifies this
      ensures Valid() && redis == Next(old(redis), R.Step.AddAuth(mac, source, given, till, details, now))
    {
      ExpireAuths(mac, now);
      var tillDisconnect := if given.Some? then given.value else till.None?;
      redis := redis.(auths := redis.auths + {(mac, Auth(source, tillDisconnect, till, details))});
    }

    method Publish(note: Note)
      modifies this
      ensures redis == old(redis).(notes := old(redis).notes + [note])
    {
      redis := redis.(notes := redis.notes + [note]);
    }

    /** `end` of the session `root`. */
    method EndKey(root: Key, time: Time)
      requires Valid()
      modifies this
      ensures Valid() && redis == Ended(old(redis), root, time)
    {
      EndedKeepsForest(redis, root, time);
      var known := redis.ids;
      CutSession(root);
      if root in known {
        match root {
          case MacKey(m) =>
            CloseMac(m);
            Publish(EndMac(m, known[root], time));
          case VlanKey(m, v) =>
            Publish(EndVlan(m, known[MacKey(m)], v, known[root], time));
          case IpKey(m, v, i) =>
            Publish(EndIp(m, known[MacKey(m)], v, known[VlanKey(m, v)], i, known[root], time));
        }
      }
    }

    /** `end` as called: ending an IP without giving its VLAN is an error that changes nothing. */
    method EndSession(mac: Mac, vlan: Option<Vlan>, ip: Option<Ip>, time: Time) returns (ok: bool)
      requires Valid()
      modifies this
      ensures Valid()
      ensures ok <==> !(ip.Some? && vlan.None?)
      ensures redis == match (vlan, ip)
                       case (None, None) => Ended(old(redis), MacKey(mac), time)
                       case (Some(v), None) => Ended(old(redis), VlanKey(mac, v), time)
                       case (Some(v), Some(i)) => Ended(old(redis), IpKey(mac, v, i), time)
                       case (None, Some(_)) => old(redis)
    {
      ok := !(ip.Some? && vlan.None?);
      if ok {
        EndKey(KeyOf(mac, vlan, ip), time);
      }
    }

    /** Adds or updates one member of the last-seen set, and tells whether it is new. */
    method Stamp(k: Key, time: Time) returns (added: set<Key>)
      modifies this
      ensures added == {k} - old(redis).lastSeen.Keys
      ensures redis == old(redis).(lastSeen := old(redis).lastSeen[k := time])
    {
      added := if k in redis.lastSeen then {} else {k};
      redis := redis.(lastSeen := redis.lastSeen[k := time]);
    }

    /** The first pipeline of `seen`. */
    method StampAll(g: Sighting) returns (added: set<Key>)
      modifies this
      ensures added == Touched(g) - old(redis).lastSeen.Keys
      ensures redis == old(redis).(lastSeen := old(redis).lastSeen + Uniform(Touched(g), g.time),
                                   vlans := old(redis).vlans + SeenVlans(g), ips := old(redis).ips + SeenIps(g))
    {
      StampsAdd(redis, g);
      hide Touched, Uniform;
      added := Stamp(MacKey(g.mac), g.time);
      if g.vlan.Some? {
        var v := g.vlan.value;
        var more := Stamp(VlanKey(g.mac, v), g.time);
        added := added + more;
        redis := redis.(vlans := redis.vlans + {(g.mac, v)});
        if g.ip.Some? {
          more := Stamp(IpKey(g.mac, v, g.ip.value), g.time);
          added := added + more;
          redis := redis.(ips := redis.ips + {(g.mac, v, g.ip.value)});
        }
      }
    }

    /** Both pipelines of `seen`: one id is drawn for all the sessions that are new. */
    method TouchAll(g: Sighting) returns (added: set<Key>)
      modifies this
      ensures added == Touched(g) - old(redis).lastSeen.Keys
      ensures redis == Touch(old(redis), g)
    {
      added := StampAll(g);
      if added != {} {
        redis := redis.(sequence := redis.sequence + 1);
        redis := redis.(ids := redis.ids + map k | k in added :: redis.sequence);
      }
    }

    /** The notifications of `seen`. */
    method Announce(g: Sighting, port: Option<Port>, moved: bool, added: set<Key>, ghost known: set<Key>)
      returns (macNew: bool, vlanNew: bool, ipNew: bool)
      requires Touched(g) <= redis.ids.Keys && added == Touched(g) - known
      requires moved ==> port.Some?
      modifies this
      ensures redis == old(redis).(notes := old(redis).notes + PortNotes(known, old(redis).ids, g, port, moved)
                                                             + NewNotes(known, old(redis).ids, g, port))
      ensures macNew <==> MacKey(g.mac) !in known
      ensures vlanNew <==> g.vlan.Some? && VlanKey(g.mac, g.vlan.value) !in known
      ensures ipNew <==> g.vlan.Some? && g.ip.Some? && IpKey(g.mac, g.vlan.value, g.ip.value) !in known
    {
      macNew := MacKey(g.mac) in added;
      vlanNew := g.vlan.Some? && VlanKey(g.mac, g.vlan.value) in added;
      ipNew := g.vlan.Some? && g.ip.Some? && IpKey(g.mac, g.vlan.value, g.ip.value) in added;
      var ids := redis.ids;
      var macId := ids[MacKey(g.mac)];
      if moved && !macNew {
        Publish(MacPort(g.mac, macId, port.value));
      }
      if ipNew {
        var vlanKey, ipKey := VlanKey(g.mac, g.vlan.value), IpKey(g.mac, g.vlan.value, g.ip.value);
        Publish(NewIp(g.mac, macId, g.vlan.value, ids[vlanKey], g.ip.value, ids[ipKey], port));
      } else if vlanNew {
        Publish(NewVlan(g.mac, macId, g.vlan.value, ids[VlanKey(g.mac, g.vlan.value)], port));
      } else if macNew {
        Publish(NewMac(g.mac, macId, port));
      }
    }

    /** What `seen` makes of the port it is given: whether the MAC moved to another port, the port to record, with what
        was known of the same port before, and whether it differs from the recorded one. */
    method ResolvePort(g: Sighting) returns (changed: bool, port: Option<Port>, differs: bool)
      ensures changed == Moves(redis, g) && port == PortSeen(redis, g) && differs == Moved(redis, g)
    {
      changed, port, differs := false, g.port, g.port.Some?;
      if g.port.Some? && g.mac in redis.ports {
        var p, old_ := g.port.value, redis.ports[g.mac];
        if p.localId != old_.localId
          || (p.interface.Some? && old_.interface.Some? && p.interface != old_.interface)
          || (p.ssid.Known? && old_.ssid.Known? && p.ssid != old_.ssid)
        {
          changed := true;
        } else {
          if old_.interface.Some? {
            p := p.(interface := old_.interface);
          }
          if old_.ssid.Known? {
            p := p.(ssid := old_.ssid);
          }
          port, differs := Some(p), p != old_;
        }
      }
    }

    /** `seen`. */
    method See(g: Sighting, now: Time) returns (macNew: bool, vlanNew: bool, ipNew: bool)
      requires Valid()
      modifies this
      ensures Valid() && redis == Seen(old(redis), g, now)
      ensures (macNew, vlanNew, ipNew) == SeenNew(old(redis), g, now)
      ensures macNew <==> !Survives(old(redis), g, MacKey(g.mac))
      ensures vlanNew <==> g.vlan.Some? && !Survives(old(redis), g, VlanKey(g.mac, g.vlan.value))
      ensures ipNew <==> g.vlan.Some? && g.ip.Some? && !Survives(old(redis), g, IpKey(g.mac, g.vlan.value, g.ip.value))
    {
      FlagsAre(redis, g, now);
      hide Survives;
      hide Moves, PortSeen, Moved, Ended, NewNotes, PortNotes, Touched;
      SeenKeepsForest(redis, g, now);
      BaseKeepsForest(redis, g, now);
      MovedHasPort(redis, g);
      var changed, port, moved := ResolvePort(g);
      if changed {
        EndKey(MacKey(g.mac), now);
      }
      ghost var base := redis;
      TouchKeys(base, g);
      var added := TouchAll(g);
      if moved {
        redis := redis.(ports := redis.ports[g.mac := port.value], lastPorts := redis.lastPorts[g.mac := port.value],
                        portMacs := redis.portMacs + {(PortKey(port.value.localId, port.value.interface), g.mac)});
      }
      macNew, vlanNew, ipNew := Announce(g, port, moved, added, base.lastSeen.Keys);
    }
  }

  lemma OneListed(s: State, root: Key)
    requires root.IpKey?
    ensures Listed(s, root) == {root}
  {
  }

  lemma MovedHasPort(s: State, g: Sighting)
    ensures Moved(s, g) ==> PortSeen(s, g).Some?
  {
  }
}
