/** What the remote control center can rely on in the session messages, beyond the table of ids. */
module ControlCenter {
  import opened Common
  import opened Sessions

  // Ports.

  /** A message that carries a port sets it; the end of the MAC session clears it. */
  function HeardPort(table: map<Mac, Port>, note: Note): map<Mac, Port> {
    match note
    case NewMac(m, _, Some(p)) => table[m := p]
    case NewVlan(m, _, _, _, Some(p)) => table[m := p]
    case NewIp(m, _, _, _, _, _, Some(p)) => table[m := p]
    case MacPort(m, _, p) => table[m := p]
    case EndMac(m, _, _) => table - {m}
    case _ => table
  }

  function ReplayPorts(notes: seq<Note>): map<Mac, Port> {
    if notes == [] then map[] else HeardPort(ReplayPorts(notes[..|notes| - 1]), notes[|notes| - 1])
  }

  /** The remote side knows exactly the recorded ports. */
  ghost predicate PortsMirrored(s: State) {
    ReplayPorts(s.notes) == s.ports
  }

  lemma ReplayPortsOne(notes: seq<Note>, note: Note)
    ensures ReplayPorts(notes + [note]) == HeardPort(ReplayPorts(notes), note)
  {
    assert (notes + [note])[..|notes|] == notes;
  }

  lemma EndedPorts(s: State, root: Key, time: Time)
    requires Forest(s) && root in s.ids
    ensures Ended(s, root, time).ports == HeardPort(s.ports, EndNote(s, root, time))
    ensures Ended(s, root, time).notes == s.notes + [EndNote(s, root, time)]
  {
    hide Listed, VlansAfter, IpsAfter;
  }

  lemma EndedMirrorsPorts(s: State, root: Key, time: Time)
    requires Forest(s) && PortsMirrored(s)
    ensures PortsMirrored(Ended(s, root, time))
  {
    if root in s.ids {
      hide Forest, Ended, EndNote, HeardPort, ReplayPorts;
      ReplayPortsOne(s.notes, EndNote(s, root, time));
      EndedPorts(s, root, time);
    }
  }

  /** The ports after the messages of one sighting. */
  lemma SightingPorts(known: set<Key>, ids: map<Key, nat>, g: Sighting, port: Option<Port>, moved: bool, notes: seq<Note>)
    requires Touched(g) <= ids.Keys && (moved ==> port.Some?)
    requires port.Some? && !moved ==> g.mac in ReplayPorts(notes) && ReplayPorts(notes)[g.mac] == port.value
    ensures ReplayPorts(notes + PortNotes(known, ids, g, port, moved) + NewNotes(known, ids, g, port))
         == if moved then ReplayPorts(notes)[g.mac := port.value] else ReplayPorts(notes)
  {
    hide ReplayPorts;
    var moves, news := PortNotes(known, ids, g, port, moved), NewNotes(known, ids, g, port);
    if moves == [] {
      assert notes + moves == notes;
    } else {
      assert notes + moves == notes + [moves[0]];
      ReplayPortsOne(notes, moves[0]);
    }
    if news == [] {
      assert notes + moves + news == notes + moves;
    } else {
      assert notes + moves + news == notes + moves + [news[0]];
      ReplayPortsOne(notes + moves, news[0]);
    }
  }

  lemma SeenMirrorsPorts(s: State, g: Sighting, now: Time)
    requires Forest(s) && PortsMirrored(s)
    ensures PortsMirrored(Seen(s, g, now))
  {
    var base := Base(s, g, now);
    BaseKeepsForest(s, g, now);
    EndedMirrorsPorts(s, MacKey(g.mac), now);
    TouchKeys(base, g);
    SightingPorts(base.lastSeen.Keys, Touch(base, g).ids, g, PortSeen(s, g), Moved(s, g), base.notes);
  }

  // Coherence.

  ghost predicate Knows(table: map<Key, nat>, k: Key, id: nat) {
    k in table && table[k] == id
  }

  /** A new session was not known and agrees with what is known of its parents; every other message is about known
      sessions, with their ids. */
  ghost predicate Fits(table: map<Key, nat>, note: Note) {
    match note
    case NewMac(m, id, _) => MacKey(m) !in table
    case NewVlan(m, macId, v, id, _) =>
      VlanKey(m, v) !in table && (MacKey(m) in table ==> Knows(table, MacKey(m), macId))
    case NewIp(m, macId, v, vlanId, i, id, _) =>
      && IpKey(m, v, i) !in table && (MacKey(m) in table ==> Knows(table, MacKey(m), macId))
      && (VlanKey(m, v) in table ==> Knows(table, VlanKey(m, v), vlanId))
    case MacPort(m, id, _) => Knows(table, MacKey(m), id)
    case EndMac(m, id, _) => Knows(table, MacKey(m), id)
    case EndVlan(m, macId, v, id, _) => Knows(table, MacKey(m), macId) && Knows(table, VlanKey(m, v), id)
    case EndIp(m, macId, v, vlanId, i, id, _) =>
      Knows(table, MacKey(m), macId) && Knows(table, VlanKey(m, v), vlanId) && Knows(table, IpKey(m, v, i), id)
  }

  /** Every message fits what the earlier ones established. */
  ghost predicate Coherent(notes: seq<Note>) {
    forall i :: 0 <= i < |notes| ==> Fits(Replay(notes[..i]), notes[i])
  }

  lemma CoherentOne(notes: seq<Note>, note: Note)
    requires Coherent(notes) && Fits(Replay(notes), note)
    ensures Coherent(notes + [note])
  {
    var all := notes + [note];
    forall i | 0 <= i < |all| ensures Fits(Replay(all[..i]), all[i]) {
      if i < |notes| {
        assert all[..i] == notes[..i];
      } else {
        assert all[..i] == notes;
      }
    }
  }

  lemma EndedIsCoherent(s: State, root: Key, time: Time)
    requires Forest(s) && Mirrored(s) && Coherent(s.notes)
    ensures Coherent(Ended(s, root, time).notes)
  {
    if root in s.ids {
      CoherentOne(s.notes, EndNote(s, root, time));
    }
  }

  lemma SightingFits(ids: map<Key, nat>, ids': map<Key, nat>, g: Sighting, port: Option<Port>)
    requires ids'.Keys == ids.Keys + Touched(g) && forall k :: k in ids ==> ids'[k] == ids[k]
    ensures forall n :: n in NewNotes(ids.Keys, ids', g, port) ==> Fits(ids, n)
  {
  }

  lemma SightingIsCoherent(s: State, g: Sighting, port: Option<Port>, moved: bool)
    requires Forest(s) && Mirrored(s) && Coherent(s.notes) && Touched(g) <= Touch(s, g).ids.Keys
    ensures var ids := Touch(s, g).ids;
            Coherent(s.notes + PortNotes(s.lastSeen.Keys, ids, g, port, moved) + NewNotes(s.lastSeen.Keys, ids, g, port))
  {
    var ids := Touch(s, g).ids;
    TouchKeys(s, g);
    var moves, news := PortNotes(s.lastSeen.Keys, ids, g, port, moved), NewNotes(s.lastSeen.Keys, ids, g, port);
    if moves == [] {
      assert s.notes + moves == s.notes;
    } else {
      assert s.notes + moves == s.notes + [moves[0]];
      CoherentOne(s.notes, moves[0]);
      ReplayOne(s.notes, moves[0]);
    }
    if news == [] {
      assert s.notes + moves + news == s.notes + moves;
    } else {
      assert s.notes + moves + news == s.notes + moves + [news[0]];
      SightingFits(s.ids, ids, g, port);
      CoherentOne(s.notes + moves, news[0]);
    }
  }

  lemma SeenIsCoherent(s: State, g: Sighting, now: Time)
    requires Forest(s) && Mirrored(s) && Coherent(s.notes)
    ensures Coherent(Seen(s, g, now).notes)
  {
    var base := Base(s, g, now);
    BaseKeepsForest(s, g, now);
    EndedStaysMirrored(s, MacKey(g.mac), now);
    EndedIsCoherent(s, MacKey(g.mac), now);
    TouchKeys(base, g);
    SightingIsCoherent(base, g, PortSeen(s, g), Moved(s, g));
  }
}
