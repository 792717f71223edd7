/** elan/session.py: the forest of MAC, VLAN and IP sessions, as functions on the content of Redis.
    A family of Redis sets indexed by a key is modelled as one relation. */
module Sessions {
  import opened Common

  /** A session: of a MAC, of a MAC on a VLAN, or of an IP of that MAC on that VLAN. */
  datatype Key =
    | MacKey(mac: Mac)
    | VlanKey(mac: Mac, vlan: Vlan)
    | IpKey(mac: Mac, vlan: Vlan, ip: Ip)

  /** The `ssid` entry of a port dictionary may be missing, null or known. */
  datatype Ssid = Absent | Null | Known(name: string)

  datatype Port = Port(localId: string, interface: Option<string>, ssid: Ssid)

  /** What PORT_MACS_PATH is formatted with. */
  datatype PortKey = PortKey(localId: string, interface: Option<string>)

  datatype Auth = Auth(source: string, tillDisconnect: bool, till: Option<Time>, details: map<string, string>)

  /** Messages to the control center on the three session topics. */
  datatype Note =
    | NewMac(mac: Mac, id: nat, port: Option<Port>)
    | NewVlan(mac: Mac, macId: nat, vlan: Vlan, id: nat, port: Option<Port>)
    | NewIp(mac: Mac, macId: nat, vlan: Vlan, vlanId: nat, ip: Ip, id: nat, port: Option<Port>)
    | MacPort(mac: Mac, id: nat, newPort: Port)
    | EndMac(mac: Mac, id: nat, time: Time)
    | EndVlan(mac: Mac, macId: nat, vlan: Vlan, id: nat, time: Time)
    | EndIp(mac: Mac, macId: nat, vlan: Vlan, vlanId: nat, ip: Ip, id: nat, time: Time)

  datatype State = State(
    lastSeen: map<Key, Time>,
    ids: map<Key, nat>,
    sequence: nat,
    vlans: set<(Mac, Vlan)>,
    ips: set<(Mac, Vlan, Ip)>,
    ports: map<Mac, Port>,
    lastPorts: map<Mac, Port>,
    portMacs: set<(PortKey, Mac)>,
    auths: set<(Mac, Auth)>,
    notes: seq<Note>)

  /** The arguments of `seen`. */
  datatype Sighting = Sighting(mac: Mac, vlan: Option<Vlan>, ip: Option<Ip>, port: Option<Port>, time: Time)

  const EMPTY := State(map[], map[], 0, {}, {}, map[], map[], {}, {}, [])

  function PortKeyOf(p: Port): PortKey {
    PortKey(p.localId, p.interface)
  }

  /** The key `k` is the session `root` or lies below it. */
  predicate Under(k: Key, root: Key) {
    match root
    case MacKey(m) => k.mac == m
    case VlanKey(m, v) => k.mac == m && !k.MacKey? && k.vlan == v
    case IpKey(_, _, _) => k == root
  }

  /** The redundant structures agree: both tables hold the same sessions, every session has its parent, the
      VLAN sets are exact, and the IP sets miss no live IP. */
  ghost predicate Forest(s: State) {
    && s.lastSeen.Keys == s.ids.Keys
    && (forall m, v :: VlanKey(m, v) in s.ids ==> MacKey(m) in s.ids)
    && (forall m, v, i :: IpKey(m, v, i) in s.ids ==> VlanKey(m, v) in s.ids)
    && (forall m, v :: (m, v) in s.vlans <==> VlanKey(m, v) in s.ids)
    && (forall m, v, i :: IpKey(m, v, i) in s.ids ==> (m, v, i) in s.ips)
  }

  // end

  /** The sessions that `end` lists for deletion: it follows the index sets, not the tables. */
  function Listed(s: State, root: Key): set<Key> {
    match root
    case MacKey(m) =>
      {root} + (set p | p in s.vlans && p.0 == m :: VlanKey(m, p.1))
      + (set q | q in s.ips && q.0 == m && (m, q.1) in s.vlans :: IpKey(m, q.1, q.2))
    case VlanKey(m, v) =>
      {root} + (set q | q in s.ips && q.0 == m && q.1 == v :: IpKey(m, v, q.2))
    case IpKey(_, _, _) => {root}
  }

  function VlansAfter(s: State, root: Key): set<(Mac, Vlan)> {
    match root
    case MacKey(m) => set p | p in s.vlans && p.0 != m
    case VlanKey(m, v) => s.vlans - {(m, v)}
    case IpKey(_, _, _) => s.vlans
  }

  /** Ending a single IP leaves it in the IP set of its VLAN. */
  function IpsAfter(s: State, root: Key): set<(Mac, Vlan, Ip)> {
    match root
    case MacKey(m) => set q | q in s.ips && !(q.0 == m && (m, q.1) in s.vlans)
    case VlanKey(m, v) => set q | q in s.ips && !(q.0 == m && q.1 == v)
    case IpKey(_, _, _) => s.ips
  }

  /** The pipeline of `end`. */
  function Cut(s: State, root: Key): State {
    s.(lastSeen := s.lastSeen - Listed(s, root),
       ids := s.ids - Listed(s, root),
       vlans := VlansAfter(s, root),
       ips := IpsAfter(s, root))
  }

  /** What follows the end of a live MAC session: the port, and the till-disconnect authentications. */
  function Disconnect(s: State, mac: Mac): State {
    s.(ports := s.ports - {mac},
       portMacs := if mac in s.ports then s.portMacs - {(PortKeyOf(s.ports[mac]), mac)} else s.portMacs,
       auths := set a | a in s.auths && !(a.0 == mac && a.1.tillDisconnect))
  }

  function EndNote(s: State, root: Key, time: Time): Note
    requires Forest(s) && root in s.ids
  {
    match root
    case MacKey(m) => EndMac(m, s.ids[root], time)
    case VlanKey(m, v) => EndVlan(m, s.ids[MacKey(m)], v, s.ids[root], time)
    case IpKey(m, v, i) => EndIp(m, s.ids[MacKey(m)], v, s.ids[VlanKey(m, v)], i, s.ids[root], time)
  }

  /** `end`, with the session to end as a key: the VLAN of an IP is always given. */
  function Ended(s: State, root: Key, time: Time): State
    requires Forest(s)
  {
    var cut := Cut(s, root);
    if root !in s.ids then cut
    else
      var closed := if root.MacKey? then Disconnect(cut, root.mac) else cut;
      closed.(notes := closed.notes + [EndNote(s, root, time)])
  }

  /** Both tables lose exactly the sessions under `root`. */
  ghost predicate LosesSubtree(s: State, s': State, root: Key) {
    && (forall k :: k in s'.ids <==> k in s.ids && !Under(k, root))
    && (forall k :: k in s'.ids ==> s'.ids[k] == s.ids[k])
    && (forall k :: k in s'.lastSeen <==> k in s.lastSeen && !Under(k, root))
    && (forall k :: k in s'.lastSeen ==> s'.lastSeen[k] == s.lastSeen[k])
  }

  lemma ListedIsSubtree(s: State, root: Key, k: Key)
    requires Forest(s)
    ensures k in s.ids ==> (k in Listed(s, root) <==> Under(k, root))
  {
    if k in s.ids {
      match k {
        case MacKey(m) =>
        case VlanKey(m, v) => assert (m, v) in s.vlans;
        case IpKey(m, v, i) => assert (m, v, i) in s.ips && (m, v) in s.vlans;
      }
    }
  }

  /** Ending a session leaves no descendant of it in either table, and loses nothing else. */
  lemma CutLosesSubtree(s: State, root: Key)
    requires Forest(s)
    ensures LosesSubtree(s, Cut(s, root), root)
  {
    forall k ensures k in s.ids ==> (k in Listed(s, root) <==> Under(k, root)) {
      ListedIsSubtree(s, root, k);
    }
  }

  lemma CutKeepsForest(s: State, root: Key)
    requires Forest(s)
    ensures Forest(Cut(s, root))
  {
    CutLosesSubtree(s, root);
  }

  lemma EndedKeepsForest(s: State, root: Key, time: Time)
    requires Forest(s)
    ensures Forest(Ended(s, root, time)) && LosesSubtree(s, Ended(s, root, time), root)
  {
    CutLosesSubtree(s, root);
    CutKeepsForest(s, root);
  }

  /** What `end` does to the rest of the store. */
  lemma EndedRest(s: State, root: Key, time: Time)
    requires Forest(s)
    ensures var s', cut := Ended(s, root, time), if root.MacKey? && root in s.ids then Disconnect(s, root.mac) else s;
            && s'.ports == cut.ports && s'.portMacs == cut.portMacs && s'.auths == cut.auths
            && s'.lastPorts == s.lastPorts && s'.sequence == s.sequence
            && s'.notes == s.notes + if root in s.ids then [EndNote(s, root, time)] else []
  {
    hide Listed, VlansAfter, IpsAfter;
  }

  // seen

  /** A different device, or a known interface or SSID that differs from a known one. */
  predicate PortChanged(new_: Port, old_: Port) {
    || new_.localId != old_.localId
    || (new_.interface.Some? && old_.interface.Some? && new_.interface != old_.interface)
    || (new_.ssid.Known? && old_.ssid.Known? && new_.ssid != old_.ssid)
  }

  /** What was known of the same port is kept. */
  function Merged(new_: Port, old_: Port): Port {
    Port(new_.localId,
         if old_.interface.Some? then old_.interface else new_.interface,
         if old_.ssid.Known? then old_.ssid else new_.ssid)
  }

  predicate Moves(s: State, g: Sighting) {
    g.port.Some? && g.mac in s.ports && PortChanged(g.port.value, s.ports[g.mac])
  }

  function PortSeen(s: State, g: Sighting): Option<Port> {
    if g.port.Some? && g.mac in s.ports && !Moves(s, g) then Some(Merged(g.port.value, s.ports[g.mac])) else g.port
  }

  /** The port to record differs from the recorded one. */
  predicate Moved(s: State, g: Sighting) {
    PortSeen(s, g).Some? && !(g.mac in s.ports && s.ports[g.mac] == PortSeen(s, g).value)
  }

  /** The sessions a sighting touches: the IP is ignored when no VLAN is given. */
  function Touched(g: Sighting): set<Key> {
    {MacKey(g.mac)}
    + (if g.vlan.Some? then {VlanKey(g.mac, g.vlan.value)} else {})
    + (if g.vlan.Some? && g.ip.Some? then {IpKey(g.mac, g.vlan.value, g.ip.value)} else {})
  }

  function SeenVlans(g: Sighting): set<(Mac, Vlan)> {
    if g.vlan.Some? then {(g.mac, g.vlan.value)} else {}
  }

  function SeenIps(g: Sighting): set<(Mac, Vlan, Ip)> {
    if g.vlan.Some? && g.ip.Some? then {(g.mac, g.vlan.value, g.ip.value)} else {}
  }

  function Uniform<V>(keys: set<Key>, value: V): map<Key, V> {
    map k | k in keys :: value
  }

  /** The two pipelines of `seen`: all touched sessions get the time, all new ones get the same fresh id. */
  function Touch(s: State, g: Sighting): State {
    var added := Touched(g) - s.lastSeen.Keys;
    s.(lastSeen := s.lastSeen + Uniform(Touched(g), g.time),
       ids := s.ids + Uniform<nat>(added, s.sequence + 1),
       sequence := if added == {} then s.sequence else s.sequence + 1,
       vlans := s.vlans + SeenVlans(g),
       ips := s.ips + SeenIps(g))
  }

  function Attach(s: State, mac: Mac, port: Port): State {
    s.(ports := s.ports[mac := port],
       lastPorts := s.lastPorts[mac := port],
       portMacs := s.portMacs + {(PortKeyOf(port), mac)})
  }

  /** Only the most specific new session is announced, together with the ids of its parents. */
  function NewNotes(known: set<Key>, ids: map<Key, nat>, g: Sighting, port: Option<Port>): seq<Note>
    requires Touched(g) <= ids.Keys
  {
    var macKey := MacKey(g.mac);
    if g.vlan.Some? && g.ip.Some? && IpKey(g.mac, g.vlan.value, g.ip.value) !in known then
      var vlanKey, ipKey := VlanKey(g.mac, g.vlan.value), IpKey(g.mac, g.vlan.value, g.ip.value);
      [NewIp(g.mac, ids[macKey], g.vlan.value, ids[vlanKey], g.ip.value, ids[ipKey], port)]
    else if g.vlan.Some? && VlanKey(g.mac, g.vlan.value) !in known then
      [NewVlan(g.mac, ids[macKey], g.vlan.value, ids[VlanKey(g.mac, g.vlan.value)], port)]
    else if macKey !in known then
      [NewMac(g.mac, ids[macKey], port)]
    else []
  }

  function PortNotes(known: set<Key>, ids: map<Key, nat>, g: Sighting, port: Option<Port>, moved: bool): seq<Note>
    requires MacKey(g.mac) in ids
  {
    if port.Some? && moved && MacKey(g.mac) in known
    then [MacPort(g.mac, ids[MacKey(g.mac)], port.value)] else []
  }

  /** The session is ended first when the MAC shows up on another port. */
  function Base(s: State, g: Sighting, now: Time): State
    requires Forest(s)
  {
    if Moves(s, g) then Ended(s, MacKey(g.mac), now) else s
  }

  /** `seen`. The time of the session end on a change of port is the current one. */
  function Seen(s: State, g: Sighting, now: Time): State
    requires Forest(s)
  {
    EndedKeepsForest(s, MacKey(g.mac), now);
    var base := Base(s, g, now);
    var touched := Touch(base, g);
    var port, moved := PortSeen(s, g), Moved(s, g);
    var attached := if moved then Attach(touched, g.mac, port.value) else touched;
    attached.(notes := attached.notes + PortNotes(base.lastSeen.Keys, touched.ids, g, port, moved)
                                      + NewNotes(base.lastSeen.Keys, touched.ids, g, port))
  }

  /** The flags `seen` returns: whether the MAC, the VLAN and the IP were new. */
  function SeenNew(s: State, g: Sighting, now: Time): (bool, bool, bool)
    requires Forest(s)
  {
    var base := Base(s, g, now);
    (MacKey(g.mac) !in base.lastSeen,
     g.vlan.Some? && VlanKey(g.mac, g.vlan.value) !in base.lastSeen,
     g.vlan.Some? && g.ip.Some? && IpKey(g.mac, g.vlan.value, g.ip.value) !in base.lastSeen)
  }

  lemma BaseKeepsForest(s: State, g: Sighting, now: Time)
    requires Forest(s)
    ensures Forest(Base(s, g, now))
  {
    EndedKeepsForest(s, MacKey(g.mac), now);
  }

  lemma TouchKeys(s: State, g: Sighting)
    requires s.lastSeen.Keys == s.ids.Keys
    ensures Touch(s, g).ids.Keys == s.ids.Keys + Touched(g) && Touch(s, g).lastSeen.Keys == s.ids.Keys + Touched(g)
    ensures forall k :: k in s.ids ==> Touch(s, g).ids[k] == s.ids[k]
    ensures forall k :: k in Touched(g) && k !in s.ids ==> Touch(s, g).ids[k] == s.sequence + 1
  {
  }

  lemma TouchKeepsForest(s: State, g: Sighting)
    requires Forest(s)
    ensures Forest(Touch(s, g))
  {
    hide Uniform;
    TouchKeys(s, g);
  }

  lemma SeenKeepsForest(s: State, g: Sighting, now: Time)
    requires Forest(s)
    ensures Forest(Seen(s, g, now))
  {
    BaseKeepsForest(s, g, now);
    TouchKeepsForest(Base(s, g, now), g);
  }

  // Replaying the notifications.

  /** What the control center makes of one message: a new session comes with the ids of its parents, and an end
      closes everything below it. */
  function Heard(table: map<Key, nat>, note: Note): map<Key, nat> {
    match note
    case NewMac(m, id, _) => table[MacKey(m) := id]
    case NewVlan(m, macId, v, id, _) => table[MacKey(m) := macId][VlanKey(m, v) := id]
    case NewIp(m, macId, v, vlanId, i, id, _) =>
      table[MacKey(m) := macId][VlanKey(m, v) := vlanId][IpKey(m, v, i) := id]
    case MacPort(_, _, _) => table
    case EndMac(m, _, _) => Without(table, MacKey(m))
    case EndVlan(m, _, v, _, _) => Without(table, VlanKey(m, v))
    case EndIp(m, _, v, _, i, _, _) => Without(table, IpKey(m, v, i))
  }

  function Without(table: map<Key, nat>, root: Key): map<Key, nat> {
    map k | k in table && !Under(k, root) :: table[k]
  }

  function Replay(notes: seq<Note>): map<Key, nat> {
    if notes == [] then map[] else Heard(Replay(notes[..|notes| - 1]), notes[|notes| - 1])
  }

  /** The remote side, from the messages alone, has exactly the session-id table. */
  ghost predicate Mirrored(s: State) {
    Replay(s.notes) == s.ids
  }

  lemma ReplayOne(notes: seq<Note>, note: Note)
    ensures Replay(notes + [note]) == Heard(Replay(notes), note)
  {
    assert (notes + [note])[..|notes|] == notes;
  }

  lemma EndNoteCuts(s: State, root: Key, time: Time, table: map<Key, nat>)
    requires Forest(s) && root in s.ids
    ensures Heard(table, EndNote(s, root, time)) == Without(table, root)
  {
  }

  lemma LosesSubtreeIds(s: State, s': State, root: Key)
    requires LosesSubtree(s, s', root)
    ensures s'.ids == Without(s.ids, root)
  {
  }

  lemma EndedStaysMirrored(s: State, root: Key, time: Time)
    requires Forest(s) && Mirrored(s)
    ensures Mirrored(Ended(s, root, time))
  {
    EndedKeepsForest(s, root, time);
    LosesSubtreeIds(s, Ended(s, root, time), root);
    if root in s.ids {
      EndNoteCuts(s, root, time, s.ids);
      ReplayOne(s.notes, EndNote(s, root, time));
    } else {
      NothingUnder(s, root);
    }
  }

  lemma NothingUnder(s: State, root: Key)
    requires Forest(s) && root !in s.ids
    ensures Without(s.ids, root) == s.ids
  {
  }

  lemma ReplayTail(notes: seq<Note>, moves: seq<Note>, news: seq<Note>)
    requires |moves| <= 1 && |news| <= 1 && (moves != [] ==> moves[0].MacPort?)
    ensures Replay(notes + moves + news)
         == if news == [] then Replay(notes) else Heard(Replay(notes), news[0])
  {
    if moves == [] {
      assert notes + moves == notes;
    } else {
      ReplayOne(notes, moves[0]);
      assert notes + moves == notes + [moves[0]];
    }
    if news == [] {
      assert notes + moves + news == notes + moves;
    } else {
      ReplayOne(notes + moves, news[0]);
      assert notes + moves + news == notes + moves + [news[0]];
    }
  }

  /** Announcing only the most specific new session loses nothing. */
  lemma SeenStaysMirrored(s: State, g: Sighting, now: Time)
    requires Forest(s) && Mirrored(s)
    ensures Mirrored(Seen(s, g, now))
  {
    var base := Base(s, g, now);
    BaseKeepsForest(s, g, now);
    EndedStaysMirrored(s, MacKey(g.mac), now);
    TouchStaysMirrored(base, g, PortSeen(s, g), Moved(s, g));
  }

  lemma TouchStaysMirrored(s: State, g: Sighting, port: Option<Port>, moved: bool)
    requires Forest(s) && Mirrored(s)
    ensures Touched(g) <= Touch(s, g).ids.Keys
    ensures var ids := Touch(s, g).ids;
            Replay(s.notes + PortNotes(s.lastSeen.Keys, ids, g, port, moved)
                           + NewNotes(s.lastSeen.Keys, ids, g, port)) == ids
  {
    var ids := Touch(s, g).ids;
    TouchKeys(s, g);
    NewNotesMirror(s.ids, ids, g, port);
    ReplayTail(s.notes, PortNotes(s.lastSeen.Keys, ids, g, port, moved), NewNotes(s.lastSeen.Keys, ids, g, port));
  }

  lemma NewNotesMirror(ids: map<Key, nat>, ids': map<Key, nat>, g: Sighting, port: Option<Port>)
    requires forall m, v :: VlanKey(m, v) in ids ==> MacKey(m) in ids
    requires forall m, v, i :: IpKey(m, v, i) in ids ==> VlanKey(m, v) in ids
    requires ids'.Keys == ids.Keys + Touched(g)
    requires forall k :: k in ids ==> ids'[k] == ids[k]
    ensures var news := NewNotes(ids.Keys, ids', g, port);
            && |news| <= 1
            && ids' == if news == [] then ids else Heard(ids, news[0])
  {
  }
}
