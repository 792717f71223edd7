/** Runs of the session operations of elan/session.py, and what every run keeps. */
module SessionRuns {
  import opened Common
  import opened Sessions
  import opened ControlCenter

  /** `till_disconnect` defaults to true unless an end date is given. */
  function TillDisconnect(given: Option<bool>, till: Option<Time>): bool {
    match given
    case Some(b) => b
    case None => till.None?
  }

  /** `remove_expired_authentication_session`. */
  function AuthExpired(s: State, mac: Mac, date: Time): State {
    s.(auths := set a | a in s.auths && !(a.0 == mac && a.1.till.Some? && a.1.till.value <= date))
  }

  /** `add_authentication_session`. */
  function AuthAdded(s: State, mac: Mac, auth: Auth, now: Time): State {
    var s1 := AuthExpired(s, mac, now);
    s1.(auths := s1.auths + {(mac, auth)})
  }

  /** `remove_authentication_sessions_by_source`. */
  function AuthRemoved(s: State, mac: Mac, source: string): State {
    s.(auths := set a | a in s.auths && !(a.0 == mac && a.1.source == source))
  }

  datatype Step =
    | See(sighting: Sighting, now: Time)
    | End(root: Key, time: Time)
    | AddAuth(mac: Mac, source: string, given: Option<bool>, till: Option<Time>, details: map<string, string>, now: Time)
    | ExpireAuths(mac: Mac, date: Time)
    | RemoveAuths(mac: Mac, source: string)

  function Next(s: State, step: Step): State
    requires Forest(s)
  {
    match step
    case See(g, now) => Seen(s, g, now)
    case End(root, time) => Ended(s, root, time)
    case AddAuth(m, source, given, till, details, now) =>
      AuthAdded(s, m, Auth(source, TillDisconnect(given, till), till, details), now)
    case ExpireAuths(m, date) => AuthExpired(s, m, date)
    case RemoveAuths(m, source) => AuthRemoved(s, m, source)
  }

  /** A recorded port belongs to a live MAC listed on it, and a MAC listed on a port with a known interface has
      that port on record. */
  ghost predicate PortsOk(s: State) {
    && (forall m :: m in s.ports ==> MacKey(m) in s.ids && (PortKeyOf(s.ports[m]), m) in s.portMacs)
    && (forall m :: m in s.ports ==> m in s.lastPorts && s.lastPorts[m] == s.ports[m])
    && (forall k, m :: (k, m) in s.portMacs && k.interface.Some? ==> m in s.ports && PortKeyOf(s.ports[m]) == k)
  }

  /** Ids come from the sequence and are never zero: `end` tests them for truth. */
  ghost predicate IdsOk(s: State) {
    forall k :: k in s.ids ==> 1 <= s.ids[k] <= s.sequence
  }

  /** The remote side knows the ids and the ports exactly, and every message fitted what it knew. */
  ghost predicate RemoteOk(s: State) {
    Mirrored(s) && PortsMirrored(s) && Coherent(s.notes)
  }

  ghost predicate Good(s: State) {
    Forest(s) && PortsOk(s) && IdsOk(s) && RemoteOk(s)
  }

  lemma DroppedKeepsPorts(s: State, s': State, mac: Mac)
    requires PortsOk(s) && s'.lastPorts == s.lastPorts && s'.ports == s.ports - {mac}
    requires s'.portMacs == if mac in s.ports then s.portMacs - {(PortKeyOf(s.ports[mac]), mac)} else s.portMacs
    requires forall m :: m != mac && MacKey(m) in s.ids ==> MacKey(m) in s'.ids
    ensures PortsOk(s')
  {
    forall m | m in s'.ports
      ensures MacKey(m) in s'.ids && (PortKeyOf(s'.ports[m]), m) in s'.portMacs
    {
      assert m in s.ports && MacKey(m) in s.ids;
    }
  }

  lemma UntouchedKeepsPorts(s: State, s': State, root: Key)
    requires PortsOk(s) && s'.lastPorts == s.lastPorts && s'.ports == s.ports && s'.portMacs == s.portMacs
    requires !(root.MacKey? && root in s.ids) && LosesSubtree(s, s', root)
    ensures PortsOk(s')
  {
  }

  lemma EndedKeepsPorts(s: State, root: Key, time: Time)
    requires Forest(s) && PortsOk(s)
    ensures PortsOk(Ended(s, root, time))
  {
    var s' := Ended(s, root, time);
    EndedKeepsForest(s, root, time);
    EndedRest(s, root, time);
    hide Forest, Ended, EndNote, PortKeyOf, PortsOk;
    if root.MacKey? && root in s.ids {
      DroppedKeepsPorts(s, s', root.mac);
    } else {
      hide Disconnect;
      UntouchedKeepsPorts(s, s', root);
    }
  }

  lemma AttachKeepsPorts(s: State, mac: Mac, port: Port)
    requires PortsOk(s) && MacKey(mac) in s.ids
    requires mac in s.ports && s.ports[mac].interface.Some? ==> PortKeyOf(port) == PortKeyOf(s.ports[mac])
    ensures PortsOk(Attach(s, mac, port))
  {
  }

  lemma SeenKeepsPorts(s: State, g: Sighting, now: Time)
    requires Forest(s) && PortsOk(s)
    ensures PortsOk(Seen(s, g, now))
  {
    var base := Base(s, g, now);
    BaseKeepsForest(s, g, now);
    EndedKeepsPorts(s, MacKey(g.mac), now);
    TouchKeys(base, g);
    assert PortsOk(Touch(base, g));
    if Moved(s, g) {
      AttachKeepsPorts(Touch(base, g), g.mac, PortSeen(s, g).value);
    }
  }

  lemma EndedKeepsIds(s: State, root: Key, time: Time)
    requires Forest(s) && IdsOk(s)
    ensures IdsOk(Ended(s, root, time))
  {
    EndedKeepsForest(s, root, time);
    EndedRest(s, root, time);
    hide Forest, Ended, EndNote;
  }

  lemma TouchKeepsIds(s: State, g: Sighting)
    requires s.lastSeen.Keys == s.ids.Keys && IdsOk(s)
    ensures IdsOk(Touch(s, g))
  {
    TouchKeys(s, g);
  }

  lemma SeenKeepsIds(s: State, g: Sighting, now: Time)
    requires Forest(s) && IdsOk(s)
    ensures IdsOk(Seen(s, g, now))
  {
    var base := Base(s, g, now);
    BaseKeepsForest(s, g, now);
    EndedKeepsIds(s, MacKey(g.mac), now);
    hide Ended, Forest, NewNotes, PortNotes, SeenVlans, SeenIps;
    TouchKeys(base, g);
    TouchKeepsIds(base, g);
  }

  lemma SeenKeepsGood(s: State, g: Sighting, now: Time)
    requires Good(s)
    ensures Good(Seen(s, g, now))
  {
    hide Forest, PortsOk, IdsOk, Mirrored, PortsMirrored, Coherent, Seen;
    SeenKeepsForest(s, g, now);
    SeenKeepsPorts(s, g, now);
    SeenKeepsIds(s, g, now);
    SeenStaysMirrored(s, g, now);
    SeenMirrorsPorts(s, g, now);
    SeenIsCoherent(s, g, now);
  }

  lemma EndedKeepsGood(s: State, root: Key, time: Time)
    requires Good(s)
    ensures Good(Ended(s, root, time))
  {
    EndedKeepsForest(s, root, time);
    EndedKeepsPorts(s, root, time);
    EndedKeepsIds(s, root, time);
    EndedStaysMirrored(s, root, time);
    EndedMirrorsPorts(s, root, time);
    EndedIsCoherent(s, root, time);
  }

  lemma AuthsDoNotMatter(s: State, auths: set<(Mac, Auth)>)
    requires Good(s)
    ensures Good(s.(auths := auths))
  {
  }

  lemma NextKeepsGood(s: State, step: Step)
    requires Good(s)
    ensures Good(Next(s, step))
  {
    var s' := Next(s, step);
    hide Good, Seen, Ended;
    match step {
      case See(g, now) => SeenKeepsGood(s, g, now);
      case End(root, time) => EndedKeepsGood(s, root, time);
      case _ => AuthsDoNotMatter(s, s'.auths);
    }
  }

  /** A run from the empty store: each state follows from the one before by one operation. */
  ghost predicate IsRun(states: seq<State>, steps: seq<Step>) {
    && |states| == |steps| + 1 && states[0] == EMPTY
    && forall i :: 0 <= i < |steps| ==> Forest(states[i]) && states[i + 1] == Next(states[i], steps[i])
  }

  lemma EmptyIsGood()
    ensures Good(EMPTY)
  {
    assert Replay([]) == map[] && ReplayPorts([]) == map[];
  }

  /** In every state of every run the five structures agree, ports and MACs point at each other, and the published
      messages rebuild the ids and the ports exactly, none of them contradicting the earlier ones. */
  lemma {:induction false} EveryRunIsGood(states: seq<State>, steps: seq<Step>, i: nat)
    requires IsRun(states, steps) && i < |states|
    ensures Good(states[i])
  {
    if i == 0 {
      EmptyIsGood();
    } else {
      EveryRunIsGood(states, steps, i - 1);
      NextKeepsGood(states[i - 1], steps[i - 1]);
    }
  }

  /** The condition on the forest in the definition of a run excludes nothing: every list of operations makes a run. */
  lemma {:induction false} EveryListRuns(steps: seq<Step>) returns (states: seq<State>)
    ensures IsRun(states, steps)
  {
    if steps == [] {
      states := [EMPTY];
    } else {
      var front, last := steps[..|steps| - 1], steps[|steps| - 1];
      var before := EveryListRuns(front);
      EveryRunIsGood(before, front, |front|);
      hide Next, Forest, PortsOk, IdsOk, RemoteOk;
      states := before + [Next(before[|front|], last)];
      forall i | 0 <= i < |steps| ensures Forest(states[i]) && states[i + 1] == Next(states[i], steps[i]) {
        if i < |front| {
          assert states[i] == before[i] && states[i + 1] == before[i + 1] && steps[i] == front[i];
        }
      }
    }
  }

  /** So a MAC is listed on at most one port with a known interface. */
  lemma OneKnownPort(s: State, mac: Mac, j: PortKey, k: PortKey)
    requires Good(s) && (j, mac) in s.portMacs && (k, mac) in s.portMacs
    requires j.interface.Some? && k.interface.Some?
    ensures j == k && mac in s.ports && MacKey(mac) in s.ids
  {
    assert PortKeyOf(s.ports[mac]) == j && PortKeyOf(s.ports[mac]) == k;
  }

  /** The end of the session of `mac` is among the messages published between the two states. */
  ghost predicate Disconnects(s: State, s': State, mac: Mac) {
    exists i :: |s.notes| <= i < |s'.notes| && s'.notes[i].EndMac? && s'.notes[i].mac == mac
  }

  lemma EndedPublishes(s: State, mac: Mac, time: Time)
    requires Forest(s) && MacKey(mac) in s.ids
    ensures Disconnects(s, Ended(s, MacKey(mac), time), mac)
    ensures s.notes <= Ended(s, MacKey(mac), time).notes
  {
    var s' := Ended(s, MacKey(mac), time);
    assert s'.notes[|s.notes|] == EndNote(s, MacKey(mac), time);
  }

  ghost predicate PortKept(s: State, s': State, mac: Mac)
    requires mac in s.ports
  {
    && mac in s'.ports && s'.ports[mac].localId == s.ports[mac].localId
    && (s.ports[mac].interface.Some? ==> s'.ports[mac].interface == s.ports[mac].interface)
    && (s.ports[mac].ssid.Known? ==> s'.ports[mac].ssid == s.ports[mac].ssid)
  }

  lemma SeenKeepsKnowledge(s: State, g: Sighting, now: Time, mac: Mac)
    requires Forest(s) && PortsOk(s) && mac in s.ports
    ensures Disconnects(s, Seen(s, g, now), mac) || PortKept(s, Seen(s, g, now), mac)
  {
    hide Listed, VlansAfter, IpsAfter, NewNotes, PortNotes, Uniform, Touched, SeenVlans, SeenIps;
    if Moves(s, g) && g.mac == mac {
      EndedPublishes(s, mac, now);
      var base, s' := Base(s, g, now), Seen(s, g, now);
      var i :| |s.notes| <= i < |base.notes| && base.notes[i].EndMac? && base.notes[i].mac == mac;
      assert s'.notes[i] == base.notes[i];
    }
  }

  lemma StepKeepsKnowledge(s: State, step: Step, mac: Mac)
    requires Good(s) && mac in s.ports
    ensures Disconnects(s, Next(s, step), mac) || PortKept(s, Next(s, step), mac)
  {
    match step {
      case See(g, now) =>
        SeenKeepsKnowledge(s, g, now, mac);
      case End(root, time) =>
        if root == MacKey(mac) {
          EndedPublishes(s, mac, time);
        }
      case _ =>
    }
  }

  lemma NextPublishesMore(s: State, step: Step)
    requires Forest(s)
    ensures s.notes <= Next(s, step).notes
  {
    hide NewNotes, PortNotes, Uniform, Touched, SeenVlans, SeenIps, Listed, VlansAfter, IpsAfter;
    match step {
      case See(g, now) => EndedRest(s, MacKey(g.mac), now);
      case End(root, time) => EndedRest(s, root, time);
      case _ =>
    }
  }

  /** From any state of any run to any later one, a known device, interface or SSID is kept, or the end of the MAC session
      was published in between. */
  lemma {:induction false} PortKnowledgeIsKept(states: seq<State>, steps: seq<Step>, i: nat, j: nat, mac: Mac)
    requires IsRun(states, steps) && i <= j < |states| && mac in states[i].ports
    ensures states[i].notes <= states[j].notes
    ensures Disconnects(states[i], states[j], mac) || PortKept(states[i], states[j], mac)
  {
    hide Next, Forest, PortsOk, IdsOk, RemoteOk;
    if i < j {
      var s, t, u := states[i], states[j - 1], states[j];
      PortKnowledgeIsKept(states, steps, i, j - 1, mac);
      EveryRunIsGood(states, steps, j - 1);
      assert u == Next(t, steps[j - 1]);
      NextPublishesMore(t, steps[j - 1]);
      if Disconnects(s, t, mac) {
        var k :| |s.notes| <= k < |t.notes| && t.notes[k].EndMac? && t.notes[k].mac == mac;
        assert u.notes[k] == t.notes[k];
      } else {
        StepKeepsKnowledge(t, steps[j - 1], mac);
        if Disconnects(t, u, mac) {
          var k :| |t.notes| <= k < |u.notes| && u.notes[k].EndMac? && u.notes[k].mac == mac;
          assert |s.notes| <= k;
        }
      }
    }
  }

  /** A MAC session never ends silently. */
  lemma EndsArePublished(s: State, step: Step, mac: Mac)
    requires Forest(s) && MacKey(mac) in s.ids
    ensures MacKey(mac) in Next(s, step).ids || Disconnects(s, Next(s, step), mac)
  {
    match step {
      case See(g, now) =>
        EndedKeepsForest(s, MacKey(g.mac), now);
        BaseKeepsForest(s, g, now);
        TouchKeys(Base(s, g, now), g);
      case End(root, time) =>
        EndedKeepsForest(s, root, time);
        if root == MacKey(mac) {
          EndedPublishes(s, mac, time);
        }
      case _ =>
    }
  }

  /** The recorded port says everything the sighting knew of it. */
  predicate Agrees(recorded: Port, reported: Port) {
    && recorded.localId == reported.localId
    && (reported.interface.Some? ==> recorded.interface == reported.interface)
    && (reported.ssid.Known? ==> recorded.ssid == reported.ssid)
  }

  ghost predicate SameBeside(ports: map<Mac, Port>, ports': map<Mac, Port>, mac: Mac) {
    forall m :: m != mac ==> (m in ports' <==> m in ports) && (m in ports ==> ports'[m] == ports[m])
  }

  /** Whether the session `k` survives the sighting: a change of port first ends everything of the MAC. */
  predicate Survives(s: State, g: Sighting, k: Key) {
    k in s.ids && !(Moves(s, g) && k.mac == g.mac)
  }

  lemma SeenParts(s: State, g: Sighting, now: Time)
    requires Forest(s)
    ensures var s', base := Seen(s, g, now), Base(s, g, now);
            && s'.ids == Touch(base, g).ids && s'.lastSeen == Touch(base, g).lastSeen
            && s'.ports == if Moved(s, g) then base.ports[g.mac := PortSeen(s, g).value] else base.ports
  {
    hide Ended, EndNote, NewNotes, PortNotes, Uniform, Touched, SeenVlans, SeenIps;
  }

  /** The base loses the whole subtree of the MAC exactly on a change of port. */
  lemma BaseLoses(s: State, g: Sighting, now: Time)
    requires Forest(s)
    ensures var base := Base(s, g, now);
            && Forest(base) && base.sequence == s.sequence
            && (if Moves(s, g) then LosesSubtree(s, base, MacKey(g.mac)) else base == s)
            && SameBeside(s.ports, base.ports, g.mac)
  {
    hide Ended, EndNote;
    EndedKeepsForest(s, MacKey(g.mac), now);
    EndedRest(s, MacKey(g.mac), now);
  }

  /** Surviving sessions keep their id; all new ones share the next id of the sequence. */
  lemma SeenTables(s: State, g: Sighting, now: Time)
    requires Forest(s)
    ensures var s' := Seen(s, g, now);
            && (forall k :: k in s'.ids <==> Survives(s, g, k) || k in Touched(g))
            && (forall k :: Survives(s, g, k) ==> s'.ids[k] == s.ids[k])
            && (forall k :: k in Touched(g) && !Survives(s, g, k) ==> s'.ids[k] == s.sequence + 1)
  {
    SeenParts(s, g, now);
    BaseLoses(s, g, now);
    TouchKeys(Base(s, g, now), g);
    hide Seen, Base, Touch, Touched;
  }

  /** Exactly the touched sessions get the time of the sighting. */
  lemma SeenTimes(s: State, g: Sighting, now: Time)
    requires Forest(s)
    ensures var s' := Seen(s, g, now);
            && (forall k :: k in s'.lastSeen <==> Survives(s, g, k) || k in Touched(g))
            && (forall k :: k in s'.lastSeen ==> s'.lastSeen[k] == if k in Touched(g) then g.time else s.lastSeen[k])
  {
    SeenParts(s, g, now);
    BaseLoses(s, g, now);
    TouchKeys(Base(s, g, now), g);
    hide Seen, Base, Touched;
  }

  lemma PortSeenAgrees(s: State, g: Sighting)
    ensures g.port.Some? <==> PortSeen(s, g).Some?
    ensures g.port.Some? ==> Agrees(PortSeen(s, g).value, g.port.value)
    ensures (Moves(s, g) ==> Moved(s, g)) && (Moved(s, g) ==> g.port.Some?)
    ensures g.port.Some? && !Moved(s, g) ==> g.mac in s.ports && s.ports[g.mac] == PortSeen(s, g).value
  {
  }

  /** After a sighting with a port, the MAC is recorded on that port. */
  lemma SeenPort(s: State, g: Sighting, now: Time)
    requires Forest(s)
    ensures var s' := Seen(s, g, now);
            && (g.port.Some? ==> g.mac in s'.ports && Agrees(s'.ports[g.mac], g.port.value))
            && (g.port.None? ==> s'.ports == s.ports)
            && SameBeside(s.ports, s'.ports, g.mac)
  {
    hide Seen, Base, Touch, Forest, LosesSubtree, Agrees, PortSeen, Moves, Moved;
    SeenParts(s, g, now);
    BaseLoses(s, g, now);
    PortSeenAgrees(s, g);
  }

  // Till-disconnect authentications.

  /** Only a MAC with a live session holds a till-disconnect authentication. */
  ghost predicate AuthsOk(s: State) {
    forall m, a :: (m, a) in s.auths && a.tillDisconnect ==> MacKey(m) in s.ids
  }

  /** A till-disconnect authentication is only added to a MAC with a live session. */
  ghost predicate AddsOnline(s: State, step: Step) {
    step.AddAuth? && TillDisconnect(step.given, step.till) ==> MacKey(step.mac) in s.ids
  }

  /** The end of a MAC session leaves none of its till-disconnect authentications. */
  lemma EndedKeepsAuths(s: State, root: Key, time: Time)
    requires Forest(s) && AuthsOk(s)
    ensures AuthsOk(Ended(s, root, time))
  {
    EndedKeepsForest(s, root, time);
  }

  lemma NextKeepsAuths(s: State, step: Step)
    requires Forest(s) && AuthsOk(s) && AddsOnline(s, step)
    ensures AuthsOk(Next(s, step))
  {
    match step {
      case See(g, now) =>
        EndedKeepsAuths(s, MacKey(g.mac), now);
        BaseKeepsForest(s, g, now);
        TouchKeys(Base(s, g, now), g);
      case End(root, time) =>
        EndedKeepsAuths(s, root, time);
      case _ =>
    }
  }

  /** An operation keeps it if and only if it adds no till-disconnect authentication to an offline MAC. */
  lemma NextKeepsAuthsIff(s: State, step: Step)
    requires Forest(s) && AuthsOk(s)
    ensures AuthsOk(Next(s, step)) <==> AddsOnline(s, step)
  {
    if AddsOnline(s, step) {
      NextKeepsAuths(s, step);
    } else {
      var a := Auth(step.source, TillDisconnect(step.given, step.till), step.till, step.details);
      assert (step.mac, a) in Next(s, step).auths && a.tillDisconnect;
    }
  }

  /** After adding an authentication to a MAC it holds no other that has expired, and it holds the new one, which ends with
      the session unless an end date or the caller says otherwise; what else it held, and every other MAC, is kept. */
  lemma AuthAddedOutcome(s: State, mac: Mac, source: string, given: Option<bool>, till: Option<Time>,
                         details: map<string, string>, now: Time)
    requires Forest(s)
    ensures var s' := Next(s, AddAuth(mac, source, given, till, details, now));
            exists a: Auth ::
              && (mac, a) in s'.auths && a.source == source && a.till == till && a.details == details
              && (given.None? ==> (a.tillDisconnect <==> till.None?)) && (given.Some? ==> a.tillDisconnect == given.value)
              && (forall b :: (mac, b) in s'.auths && b != a ==> b.till.None? || b.till.value > now)
              && (forall m, b :: (m, b) in s.auths && (m != mac || b.till.None? || b.till.value > now) ==> (m, b) in s'.auths)
              && (forall m, b :: (m, b) in s'.auths && (m != mac || b != a) ==> (m, b) in s.auths)
  {
    var s' := Next(s, AddAuth(mac, source, given, till, details, now));
    assert (mac, Auth(source, TillDisconnect(given, till), till, details)) in s'.auths;
  }

  lemma {:induction false} RunKeepsAuths(states: seq<State>, steps: seq<Step>, i: nat)
    requires IsRun(states, steps) && i < |states|
    requires forall j :: 0 <= j < i ==> AddsOnline(states[j], steps[j])
    ensures AuthsOk(states[i])
  {
    hide Next, Forest, AddsOnline;
    if i > 0 {
      RunKeepsAuths(states, steps, i - 1);
      NextKeepsAuths(states[i - 1], steps[i - 1]);
    }
  }

  /** In all states of a run only online MACs hold till-disconnect authentications, if and only if they are always added to
      online MACs. */
  lemma EveryRunEndsAuthsIff(states: seq<State>, steps: seq<Step>)
    requires IsRun(states, steps)
    ensures (forall i :: 0 <= i < |states| ==> AuthsOk(states[i]))
       <==> (forall j :: 0 <= j < |steps| ==> AddsOnline(states[j], steps[j]))
  {
    hide Next, Forest, AddsOnline, AuthsOk;
    if forall j :: 0 <= j < |steps| ==> AddsOnline(states[j], steps[j]) {
      forall i | 0 <= i < |states| ensures AuthsOk(states[i]) {
        RunKeepsAuths(states, steps, i);
      }
    }
    if forall i :: 0 <= i < |states| ==> AuthsOk(states[i]) {
      forall j | 0 <= j < |steps| ensures AddsOnline(states[j], steps[j]) {
        assert AuthsOk(states[j]) && AuthsOk(states[j + 1]);
        NextKeepsAuthsIff(states[j], steps[j]);
      }
    }
  }
}
