/** What `seen` and `end` leave and publish, written out. */
module SessionEffects {
  import opened Common
  import opened Sessions
  import opened SessionRuns

  /** `end` of a live MAC session. */
  predicate EndsMac(s: State, root: Key, mac: Mac) {
    root == MacKey(mac) && root in s.ids
  }

  /** Exactly the till-disconnect authentications of a MAC whose session ends are lost. */
  lemma EndedAuths(s: State, root: Key, time: Time, m: Mac, a: Auth)
    requires Forest(s)
    ensures (m, a) in Ended(s, root, time).auths <==> (m, a) in s.auths && !(EndsMac(s, root, m) && a.tillDisconnect)
  {
    hide Forest, EndNote, Ended;
    EndedRest(s, root, time);
  }

  /** Exactly the MAC whose session ends loses its port, and is taken off that port's MAC set; the last port stays known. */
  lemma EndedPortIndexes(s: State, root: Key, time: Time, k: PortKey, m: Mac)
    requires Forest(s)
    ensures var s' := Ended(s, root, time);
            && (m in s'.ports <==> m in s.ports && !EndsMac(s, root, m)) && (m in s'.ports ==> s'.ports[m] == s.ports[m])
            && s'.lastPorts == s.lastPorts
            && ((k, m) in s'.portMacs <==>
                  (k, m) in s.portMacs
                  && !(EndsMac(s, root, m) && m in s.ports && k == PortKey(s.ports[m].localId, s.ports[m].interface)))
  {
    hide Forest, EndNote, Ended;
    EndedRest(s, root, time);
  }

  /** Ending a MAC deletes the IP sets of its live VLANs, ending a VLAN its own; ending an IP deletes none. */
  lemma EndedIpSets(s: State, root: Key, time: Time, m: Mac, v: Vlan, i: Ip)
    requires Forest(s)
    ensures (m, v, i) in Ended(s, root, time).ips <==>
              (m, v, i) in s.ips && root != VlanKey(m, v) && !(root == MacKey(m) && VlanKey(m, v) in s.ids)
  {
    hide EndNote, Listed, Disconnect;
    assert (m, v) in s.vlans <==> VlanKey(m, v) in s.ids;
    assert Ended(s, root, time).ips == IpsAfter(s, root) by {
      EndedIsCutElsewhere(s, root, time);
    }
  }

  lemma EndedIsCutElsewhere(s: State, root: Key, time: Time)
    requires Forest(s)
    ensures Ended(s, root, time).ips == IpsAfter(s, root)
  {
    hide EndNote, Listed, IpsAfter, VlansAfter;
  }

  /** A live session that ends is reported once, with its id, those of its parents and the time given; nothing else is. */
  lemma EndedMessages(s: State, root: Key, time: Time)
    requires Forest(s)
    ensures Ended(s, root, time).notes == s.notes +
              if root !in s.ids then []
              else match root
                   case MacKey(m) => [EndMac(m, s.ids[root], time)]
                   case VlanKey(m, v) => [EndVlan(m, s.ids[MacKey(m)], v, s.ids[root], time)]
                   case IpKey(m, v, i) => [EndIp(m, s.ids[MacKey(m)], v, s.ids[VlanKey(m, v)], i, s.ids[root], time)]
  {
    hide Ended;
    EndedRest(s, root, time);
  }

  // seen

  /** A change of port means that no port can agree with both what was recorded and what was reported. */
  lemma ChangedIff(reported: Port, recorded: Port)
    ensures PortChanged(reported, recorded) <==> !exists p :: Agrees(p, reported) && Agrees(p, recorded)
  {
    if !PortChanged(reported, recorded) {
      var p := Merged(reported, recorded);
      assert Agrees(p, reported) && Agrees(p, recorded);
    }
  }

  /** The MAC has a session on a port that the reported one contradicts. */
  ghost predicate Leaves(s: State, g: Sighting) {
    && g.port.Some? && g.mac in s.ports && MacKey(g.mac) in s.ids
    && !exists p :: Agrees(p, g.port.value) && Agrees(p, s.ports[g.mac])
  }

  lemma LeavesIff(s: State, g: Sighting)
    ensures Leaves(s, g) <==> Moves(s, g) && MacKey(g.mac) in s.ids
  {
    hide PortChanged, Agrees;
    if g.port.Some? && g.mac in s.ports {
      ChangedIff(g.port.value, s.ports[g.mac]);
    }
  }

  /** Apart from a MAC that leaves its port, `seen` loses no authentication. */
  lemma SeenAuths(s: State, g: Sighting, now: Time, m: Mac, a: Auth)
    requires Forest(s)
    ensures (m, a) in Seen(s, g, now).auths <==> (m, a) in s.auths && !(Leaves(s, g) && m == g.mac && a.tillDisconnect)
  {
    hide Forest, Moves, Leaves, Ended, EndNote, NewNotes, PortNotes, Touched, SeenVlans, SeenIps, Uniform;
    LeavesIff(s, g);
    EndedAuths(s, MacKey(g.mac), now, m, a);
  }

  /** A sighting on a first or on another port records that port; on the same port it adds what is newly known, and invents
      nothing. */
  lemma SeenPortIs(s: State, g: Sighting, now: Time)
    requires Forest(s) && g.port.Some?
    ensures var s' := Seen(s, g, now); var reported := g.port.value;
            && g.mac in s'.ports
            && if g.mac !in s.ports || !exists p :: Agrees(p, reported) && Agrees(p, s.ports[g.mac])
               then s'.ports[g.mac] == reported
               else var r, recorded := s'.ports[g.mac], s.ports[g.mac];
                    && Agrees(r, reported) && Agrees(r, recorded)
                    && (r.interface.Some? ==> recorded.interface.Some? || reported.interface.Some?)
                    && (r.ssid.Known? ==> recorded.ssid.Known? || reported.ssid.Known?)
  {
    SeenParts(s, g, now);
    BaseLoses(s, g, now);
    PortSeenAgrees(s, g);
    if g.mac in s.ports {
      ChangedIff(g.port.value, s.ports[g.mac]);
    }
    hide Seen, Base, Touch, Forest, LosesSubtree;
  }

  /** The MAC sets of ports: a MAC that leaves its port is taken off it, and one whose recorded port changes is put on the
      new one. */
  lemma SeenPortMacs(s: State, g: Sighting, now: Time, k: PortKey, m: Mac)
    requires Forest(s)
    ensures var s' := Seen(s, g, now);
            (k, m) in s'.portMacs <==>
              || ((k, m) in s.portMacs
                  && !(Leaves(s, g) && m == g.mac && k == PortKey(s.ports[m].localId, s.ports[m].interface)))
              || (m == g.mac && g.port.Some? && m in s'.ports && !(m in s.ports && s'.ports[m] == s.ports[m])
                  && k == PortKey(s'.ports[m].localId, s'.ports[m].interface))
  {
    SeenParts(s, g, now);
    SeenPortParts(s, g, now);
    LeavesIff(s, g);
    PortSeenAgrees(s, g);
    EndedPortIndexes(s, MacKey(g.mac), now, k, m);
    hide Seen, Ended, Touch, Forest, Leaves, Agrees, PortSeen, EndNote, PortChanged;
  }

  lemma SeenPortParts(s: State, g: Sighting, now: Time)
    requires Forest(s)
    ensures var s', base := Seen(s, g, now), Base(s, g, now);
            && (if Moved(s, g) then PortSeen(s, g).Some?
                  && s'.portMacs == base.portMacs + {(PortKeyOf(PortSeen(s, g).value), g.mac)}
                  && s'.lastPorts == base.lastPorts[g.mac := PortSeen(s, g).value]
                else s'.portMacs == base.portMacs && s'.lastPorts == base.lastPorts)
            && s'.ips == base.ips + SeenIps(g)
            && s'.sequence == Touch(base, g).sequence
            && s'.notes == base.notes + SeenNotes(s, g, now)
  {
    hide Ended, EndNote, NewNotes, PortNotes, Uniform, Touched, SeenVlans, SeenIps, PortSeen, Moves;
    PortSeenAgrees(s, g);
    BaseKeepsForest(s, g, now);
    TouchKeys(Base(s, g, now), g);
  }

  /** The messages of a sighting after those of the end, if any. */
  function SeenNotes(s: State, g: Sighting, now: Time): seq<Note>
    requires Forest(s)
  {
    BaseKeepsForest(s, g, now);
    var base := Base(s, g, now);
    TouchKeys(base, g);
    var ids := Touch(base, g).ids;
    PortNotes(base.lastSeen.Keys, ids, g, PortSeen(s, g), Moved(s, g)) + NewNotes(base.lastSeen.Keys, ids, g, PortSeen(s, g))
  }

  /** The last known port follows the recorded one. */
  lemma SeenLastPort(s: State, g: Sighting, now: Time, m: Mac)
    requires Forest(s)
    ensures var s' := Seen(s, g, now);
            if m == g.mac && g.port.Some? && m in s'.ports && !(m in s.ports && s'.ports[m] == s.ports[m])
            then m in s'.lastPorts && s'.lastPorts[m] == s'.ports[m]
            else (m in s'.lastPorts <==> m in s.lastPorts) && (m in s.lastPorts ==> s'.lastPorts[m] == s.lastPorts[m])
  {
    hide Seen, Ended, Touch, Forest, Agrees, PortSeen, EndNote, PortChanged, SeenNotes, SeenIps;
    SeenParts(s, g, now);
    SeenPortParts(s, g, now);
    PortSeenAgrees(s, g);
    EndedRest(s, MacKey(g.mac), now);
  }

  /** IP sets gain the IP that was seen; a MAC that leaves its port first loses those of its live VLANs. */
  lemma SeenIpSets(s: State, g: Sighting, now: Time, m: Mac, v: Vlan, i: Ip)
    requires Forest(s)
    ensures (m, v, i) in Seen(s, g, now).ips <==>
              || ((m, v, i) in s.ips && !(Leaves(s, g) && m == g.mac && VlanKey(m, v) in s.ids))
              || (m == g.mac && g.vlan == Some(v) && g.ip == Some(i))
  {
    SeenPortParts(s, g, now);
    LeavesIff(s, g);
    EndedIpSets(s, MacKey(g.mac), now, m, v, i);
    assert !(MacKey(g.mac) in s.ids) ==> VlanKey(g.mac, v) !in s.ids;
    hide Seen, Ended, Touch, Leaves, Moved, PortSeen, PortChanged;
  }

  /** A session is known to the base of the sighting exactly if it survives. */
  lemma BaseKnows(s: State, g: Sighting, now: Time)
    requires Forest(s)
    ensures Forest(Base(s, g, now)) && forall k :: k in Base(s, g, now).lastSeen <==> Survives(s, g, k)
    ensures Base(s, g, now).notes == s.notes + if Leaves(s, g) then [EndMac(g.mac, s.ids[MacKey(g.mac)], now)] else []
  {
    BaseLoses(s, g, now);
    EndedMessages(s, MacKey(g.mac), now);
    LeavesIff(s, g);
    hide Ended, Moves, Leaves;
  }

  /** All new sessions of a sighting take one number of the sequence. */
  lemma SeenSequence(s: State, g: Sighting, now: Time)
    requires Forest(s)
    ensures Seen(s, g, now).sequence == s.sequence + if forall k :: k in Touched(g) ==> Survives(s, g, k) then 0 else 1
  {
    SeenPortParts(s, g, now);
    BaseKnows(s, g, now);
    BaseLoses(s, g, now);
    hide Seen, Base, Survives, Touched, Uniform, SeenVlans, SeenIps, Forest, SeenNotes;
    var base := Base(s, g, now);
    assert Touched(g) - base.lastSeen.Keys == {} <==> forall k :: k in Touched(g) ==> k in base.lastSeen;
  }

  /** A new port is reported for a MAC that was known before. */
  ghost predicate ReportsPort(s: State, s': State, g: Sighting) {
    && Survives(s, g, MacKey(g.mac)) && g.port.Some?
    && g.mac in s'.ports && !(g.mac in s.ports && s'.ports[g.mac] == s.ports[g.mac])
  }

  lemma ReportsPortIff(s: State, g: Sighting, now: Time)
    requires Forest(s)
    ensures ReportsPort(s, Seen(s, g, now), g) <==> Survives(s, g, MacKey(g.mac)) && PortSeen(s, g).Some? && Moved(s, g)
    ensures if g.port.Some? then g.mac in Seen(s, g, now).ports && PortSeen(s, g) == Some(Seen(s, g, now).ports[g.mac])
            else PortSeen(s, g).None?
  {
    SeenParts(s, g, now);
    BaseLoses(s, g, now);
    PortSeenAgrees(s, g);
    hide Seen, Base, Touch, Forest, LosesSubtree, Agrees, PortSeen, PortChanged;
  }

  /** Exactly these messages are published: the end, if the MAC leaves its port; the port, if it is new for a known MAC; and
      the most specific session that is new, with the ids of its parents and the recorded port if one was reported. */
  lemma SeenMessages(s: State, g: Sighting, now: Time)
    requires Forest(s)
    ensures var s', m := Seen(s, g, now), MacKey(g.mac);
            && Touched(g) <= s'.ids.Keys && (g.port.Some? ==> g.mac in s'.ports)
            && var port := if g.port.Some? then Some(s'.ports[g.mac]) else None;
               s'.notes == s.notes
                 + (if Leaves(s, g) then [EndMac(g.mac, s.ids[m], now)] else [])
                 + (if ReportsPort(s, s', g) then [MacPort(g.mac, s.ids[m], s'.ports[g.mac])] else [])
                 + match (g.vlan, g.ip)
                   case (Some(v), Some(i)) =>
                     if !Survives(s, g, IpKey(g.mac, v, i)) then
                       [NewIp(g.mac, s'.ids[m], v, s'.ids[VlanKey(g.mac, v)], i, s'.ids[IpKey(g.mac, v, i)], port)]
                     else if !Survives(s, g, VlanKey(g.mac, v)) then
                       [NewVlan(g.mac, s'.ids[m], v, s'.ids[VlanKey(g.mac, v)], port)]
                     else if !Survives(s, g, m) then [NewMac(g.mac, s'.ids[m], port)] else []
                   case (Some(v), None) =>
                     if !Survives(s, g, VlanKey(g.mac, v)) then
                       [NewVlan(g.mac, s'.ids[m], v, s'.ids[VlanKey(g.mac, v)], port)]
                     else if !Survives(s, g, m) then [NewMac(g.mac, s'.ids[m], port)] else []
                   case (None, _) =>
                     if !Survives(s, g, m) then [NewMac(g.mac, s'.ids[m], port)] else []
  {
    SeenPortParts(s, g, now);
    SeenParts(s, g, now);
    BaseKnows(s, g, now);
    SeenTables(s, g, now);
    ReportsPortIff(s, g, now);
    TouchKeys(Base(s, g, now), g);
    hide Seen, Base, Survives, Leaves, ReportsPort, PortSeen, Moved, Forest, Touch;
  }

  /** What the flags that `seen` returns mean. */
  lemma FlagsAre(s: State, g: Sighting, now: Time)
    requires Forest(s)
    ensures var (macNew, vlanNew, ipNew) := SeenNew(s, g, now);
            && (macNew <==> !Survives(s, g, MacKey(g.mac)))
            && (vlanNew <==> g.vlan.Some? && !Survives(s, g, VlanKey(g.mac, g.vlan.value)))
            && (ipNew <==> g.vlan.Some? && g.ip.Some? && !Survives(s, g, IpKey(g.mac, g.vlan.value, g.ip.value)))
  {
    BaseKnows(s, g, now);
    hide Base, Survives, Forest;
  }

  // Authentications.

  /** Removing by source takes exactly those of the MAC from that source; expiring exactly its own that have run out. */
  lemma AuthsLeft(s: State, mac: Mac, source: string, date: Time, m: Mac, a: Auth)
    requires Forest(s)
    ensures (m, a) in Next(s, RemoveAuths(mac, source)).auths <==> (m, a) in s.auths && (m != mac || a.source != source)
    ensures (m, a) in Next(s, ExpireAuths(mac, date)).auths <==>
              (m, a) in s.auths && (m != mac || a.till.None? || a.till.value > date)
  {
  }
}
