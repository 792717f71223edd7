/** What a disconnection undoes: the till-disconnect authorizations and authentications of the MAC. */
module DisconnectRuns {
  import opened Common
  import opened Authorization
  import opened Firewall
  import opened Enforcement
  import opened Coverage
  import opened NacProtocol
  import S = Sessions
  import R = SessionRuns

  /** The MAC holds an authorization that should not outlive its session. */
  predicate Holds(n: Net, mac: Mac) {
    mac in n.sessions && n.sessions[mac].terms.tillDisconnect
  }

  /** An offline MAC that still holds one has a disconnection message on its way. */
  ghost predicate Pursued(w: World) {
    forall m :: Holds(w.agent.net, m) && !Live(w.sess, m) ==> m in w.disconnections
  }

  /** A till-disconnect authorization is granted to an online MAC, or to one whose disconnection is still to be delivered. */
  ghost predicate GrantsOnline(w: World, step: Step) {
    step.Recheck? && step.answer.Assigned? && step.answer.terms.tillDisconnect ==>
      Live(w.sess, step.mac) || step.mac in w.disconnections
  }

  /** A till-disconnect authentication is added to an online MAC. */
  ghost predicate AddsOnline(w: World, step: Step) {
    step.Session? ==> R.AddsOnline(w.sess, step.step)
  }

  /** A MAC newly holding a till-disconnect authorization was online. */
  ghost predicate GainsOnline(n: Net, n': Net, online: set<Mac>) {
    forall m :: Holds(n', m) ==> Holds(n, m) || m in online
  }

  lemma {:induction false} SweepGainsOnline(n: Net, fw: Fw, c: Check)
    ensures GainsOnline(n, Swept(n, fw, c).net, c.online)
    decreases |c.order|
  {
    if c.order != [] {
      var mac := c.order[0];
      assert GainsOnline(n, Expired(n, mac, c), c.online);
      if !Fails(c, mac) {
        SweepGainsOnline(Expired(n, mac, c), Allowed(fw, mac, {}, {}), c.(order := c.order[1..]));
      }
    }
  }

  lemma {:induction false} RecheckedGainsOnline(n: Net, c: Check)
    ensures GainsOnline(n, Rechecked(n, c), c.online)
    decreases |c.order|
  {
    if c.order != [] && !Fails(c, c.order[0]) {
      var mac := c.order[0];
      var n1 := if mac in c.online then CheckAuthz(n, mac, c.answers(mac), "overridden") else n;
      assert GainsOnline(n, n1, c.online);
      RecheckedGainsOnline(n1, c.(order := c.order[1..]));
    }
  }

  lemma OnlineIsLive(s: S.State, mac: Mac)
    requires S.Forest(s) && mac in Online(s)
    ensures Live(s, mac)
  {
  }

  lemma {:induction false} EndedMacsHas(notes: seq<S.Note>, from: nat, i: nat)
    requires from <= i < |notes| && notes[i].EndMac?
    ensures notes[i].mac in EndedMacs(notes, from)
    decreases i - from
  {
    if from < i {
      EndedMacsHas(notes, from + 1, i);
    }
  }

  /** The disconnections a session step adds are exactly the MAC session ends among its messages. */
  lemma {:induction false} EndedMacsIff(notes: seq<S.Note>, from: nat, m: Mac)
    ensures m in EndedMacs(notes, from) <==> exists i :: from <= i < |notes| && notes[i].EndMac? && notes[i].mac == m
    decreases |notes| - from
  {
    if from < |notes| {
      EndedMacsIff(notes, from + 1, m);
    }
  }

  lemma SessionKeepsPursued(w: World, step: R.Step)
    requires R.Good(w.sess) && Pursued(w)
    ensures Pursued(After(w, Session(step)))
  {
    hide R.PortsOk, R.IdsOk, R.RemoteOk, R.Next, EndedMacs, Holds;
    var w' := After(w, Session(step));
    forall m | Holds(w'.agent.net, m) && !Live(w'.sess, m) ensures m in w'.disconnections {
      if Live(w.sess, m) {
        R.EndsArePublished(w.sess, step, m);
        var i :| |w.sess.notes| <= i < |w'.sess.notes| && w'.sess.notes[i].EndMac? && w'.sess.notes[i].mac == m;
        EndedMacsHas(w'.sess.notes, |w.sess.notes|, i);
      } else {
        assert m in w.disconnections;
      }
    }
  }

  lemma StepKeepsPursued(w: World, step: Step)
    requires R.Good(w.sess) && Enabled(w, step) && Pursued(w) && GrantsOnline(w, step)
    ensures Pursued(After(w, step))
  {
    hide Swept, Earliest, R.PortsOk, R.IdsOk, R.RemoteOk;
    forall m | m in Online(w.sess) ensures Live(w.sess, m) {
      OnlineIsLive(w.sess, m);
    }
    match step {
      case RecheckAll(c) => RecheckedGainsOnline(w.agent.net, c);
      case ChangeArrives(mac, last, c) =>
        var a := Delivered(w.agent, mac, last);
        SweepGainsOnline(a.net, Refreshed(a.net, a.fw, mac), c);
      case DisconnectionArrives(mac, _, c) =>
        var a := Disconnected(w.agent, mac);
        SweepGainsOnline(a.net, a.fw, c);
      case TimerFires(c) => SweepGainsOnline(w.agent.net, w.agent.fw, c);
      case Session(s) => SessionKeepsPursued(w, s);
      case _ =>
    }
  }

  /** The assumption cannot be weakened: one grant keeps the property exactly when it meets it. */
  lemma GrantKeepsPursuedIff(w: World, mac: Mac, terms: Terms, reason: string)
    requires S.Forest(w.sess) && Pursued(w)
    ensures Pursued(After(w, Recheck(mac, Assigned(terms), reason)))
       <==> (terms.tillDisconnect ==> Live(w.sess, mac) || mac in w.disconnections)
  {
    var w' := After(w, Recheck(mac, Assigned(terms), reason));
    assert Holds(w'.agent.net, mac) <==> terms.tillDisconnect;
    assert forall m :: m != mac ==> (Holds(w'.agent.net, m) <==> Holds(w.agent.net, m));
  }

  // Start-up.

  /** The session of `m` ended while there was no manager to hear of it, and its till-disconnect authorization has not run
      out in the meantime. */
  predicate Abandoned(o: Origin, m: Mac) {
    Holds(o.net, m) && !Live(o.sess, m) && !Overdue(o.net, o.now, m)
  }

  lemma {:induction false} SweepDropsOffline(n: Net, fw: Fw, c: Check, m: Mac)
    requires m !in c.online && (m in Visited(c) || m !in n.sessions)
    ensures m !in Swept(n, fw, c).net.sessions
    decreases |c.order|
  {
    if c.order != [] {
      var mac := c.order[0];
      var n1 := Expired(n, mac, c);
      assert m == mac || m !in n.sessions ==> m !in n1.sessions;
      if !Fails(c, mac) {
        SweepDropsOffline(n1, Allowed(fw, mac, {}, {}), c.(order := c.order[1..]), m);
      }
    }
  }

  lemma AbandonedIsHeld(o: Origin, m: Mac)
    requires Startable(o) && !Live(o.sess, m)
    ensures Holds(Start(o).agent.net, m) <==> Abandoned(o, m)
  {
    var a := Agent(o.net, BlankFw(o.on, o.to), None);
    CheckClearsOverdue(a, o.check, o.now, m);
    SuccessVisitsAll(o.check);
    if m in Online(o.sess) {
      OnlineIsLive(o.sess, m);
    }
    if Overdue(o.net, o.now, m) {
      assert m in o.check.order;
      SweepDropsOffline(o.net, BlankFw(o.on, o.to), o.check, m);
    }
  }

  /** Start-up pursues every offline MAC if and only if none was abandoned. */
  lemma StartPursuesIff(o: Origin)
    requires Startable(o)
    ensures Pursued(Start(o)) <==> forall m :: !Abandoned(o, m)
  {
    hide Startable, Holds, Overdue;
    forall m | !Live(o.sess, m) ensures Holds(Start(o).agent.net, m) <==> Abandoned(o, m) {
      AbandonedIsHeld(o, m);
    }
  }

  /** If till-disconnect grants go to online MACs only and no MAC was abandoned before start-up, then in every state of
      every run an offline MAC that still holds a till-disconnect authorization has an undelivered disconnection message. */
  lemma {:induction false} DisconnectionIsPursued(o: Origin, ws: seq<World>, steps: seq<Step>, i: nat)
    requires IsRun(o, ws, steps) && i < |ws| && forall m :: !Abandoned(o, m)
    requires forall j :: 0 <= j < i ==> GrantsOnline(ws[j], steps[j])
    ensures Pursued(ws[i])
  {
    hide Pursued, GrantsOnline, Startable, Start, After, Abandoned, AgentOk, StaleAt;
    if i == 0 {
      StartPursuesIff(o);
    } else {
      DisconnectionIsPursued(o, ws, steps, i - 1);
      EveryStateOk(o, ws, steps, i - 1);
      assert GrantsOnline(ws[i - 1], steps[i - 1]);
      StepKeepsPursued(ws[i - 1], steps[i - 1]);
    }
  }

  /** Both conditions are exact: in all states of a run every offline MAC that still holds a till-disconnect authorization
      is pursued, if and only if none was abandoned before start-up and every grant went to an online MAC or to one whose
      disconnection was pending. */
  lemma DisconnectionIsPursuedIff(o: Origin, ws: seq<World>, steps: seq<Step>)
    requires IsRun(o, ws, steps)
    ensures (forall i :: 0 <= i < |ws| ==> Pursued(ws[i]))
       <==> (forall m :: !Abandoned(o, m)) && (forall j :: 0 <= j < |steps| ==> GrantsOnline(ws[j], steps[j]))
  {
    hide Pursued, Startable, Start, After, Abandoned, GrantsOnline, S.Forest;
    StartPursuesIff(o);
    if (forall m :: !Abandoned(o, m)) && (forall j :: 0 <= j < |steps| ==> GrantsOnline(ws[j], steps[j])) {
      forall i | 0 <= i < |ws| ensures Pursued(ws[i]) {
        DisconnectionIsPursued(o, ws, steps, i);
      }
    }
    if forall i :: 0 <= i < |ws| ==> Pursued(ws[i]) {
      forall j | 0 <= j < |steps| ensures GrantsOnline(ws[j], steps[j]) {
        assert Pursued(ws[j]) && Pursued(ws[j + 1]);
        StepNeedsOnline(ws[j], steps[j]);
      }
    }
  }

  lemma StepNeedsOnline(w: World, step: Step)
    requires S.Forest(w.sess) && Pursued(w) && Pursued(After(w, step))
    ensures GrantsOnline(w, step)
  {
    hide Pursued, After, S.Forest;
    if step.Recheck? && step.answer.Assigned? {
      GrantKeepsPursuedIff(w, step.mac, step.answer.terms, step.reason);
    }
  }

  /** A store in which a MAC was seen once and its session ended. */
  function SeenAndEnded(mac: Mac, now: Time): S.State {
    var g := S.Sighting(mac, None, None, None, now);
    S.SeenKeepsForest(S.EMPTY, g, now);
    R.Next(R.Next(S.EMPTY, R.See(g, now)), R.End(S.MacKey(mac), now))
  }

  lemma SeenAndEndedIsOffline(mac: Mac, now: Time)
    ensures R.Good(SeenAndEnded(mac, now)) && !Live(SeenAndEnded(mac, now), mac) && Online(SeenAndEnded(mac, now)) == {}
  {
    var g := S.Sighting(mac, None, None, None, now);
    R.EmptyIsGood();
    R.NextKeepsGood(S.EMPTY, R.See(g, now));
    var s := R.Next(S.EMPTY, R.See(g, now));
    R.NextKeepsGood(s, R.End(S.MacKey(mac), now));
    R.SeenTables(S.EMPTY, g, now);
    S.EndedKeepsForest(s, S.MacKey(mac), now);
    hide S.Seen, S.Ended, R.PortsOk, R.IdsOk, R.RemoteOk;
    forall k | k in s.ids ensures S.Under(k, S.MacKey(mac)) {
      assert k in S.Touched(g);
    }
  }

  /** The failing input: a MAC got an unlimited till-disconnect authorization while it was online, and its session ended while
      the manager was down. The manager starts, and no message about it is on its way. */
  lemma MissedEndIsNotPursued(mac: Mac, vlan: Vlan, now: Time) returns (o: Origin)
    ensures Startable(o) && o.sess == SeenAndEnded(mac, now) && Abandoned(o, mac) && !Pursued(Start(o))
  {
    hide R.Good, SeenAndEnded, LogOk, StoreOk, Online, Start, Pursued;
    var terms := Terms(vlan, {vlan}, {}, true, None, map[]);
    var n := OneStored(mac, terms);
    o := Origin(n, {}, {}, Check([], {}, _ => CallFailed), [mac], now, SeenAndEnded(mac, now));
    SeenAndEndedIsOffline(mac, now);
    assert Lists(o.macs, Swept(n, BlankFw({}, {}), o.check).net);
    assert Startable(o) && Abandoned(o, mac);
    StartPursuesIff(o);
  }

  lemma OneStored(mac: Mac, terms: Terms) returns (n: Net)
    requires terms.till == None
    ensures StoreOk(n) && LogOk(n) && n.sessions == map[mac := Stored(1, terms)] && n.expiry == map[mac := Never]
  {
    var none := Net(map[], map[], 0, [], multiset{});
    SavedOk(none, mac, terms);
    n := Saved(none, mac, terms);
  }

  // Authentications.

  lemma {:induction false} RunKeepsAuths(o: Origin, ws: seq<World>, steps: seq<Step>, i: nat)
    requires IsRun(o, ws, steps) && i < |ws| && R.AuthsOk(o.sess)
    requires forall j :: 0 <= j < i ==> AddsOnline(ws[j], steps[j])
    ensures R.AuthsOk(ws[i].sess)
  {
    hide R.AuthsOk, Startable, R.Next, S.Forest, Enabled;
    if i > 0 {
      RunKeepsAuths(o, ws, steps, i - 1);
      assert AddsOnline(ws[i - 1], steps[i - 1]);
      if steps[i - 1].Session? {
        R.NextKeepsAuths(ws[i - 1].sess, steps[i - 1].step);
      }
    }
  }

  /** In all states of a run no till-disconnect authentication is left for an offline MAC, if and only if none was at start-up
      and they are always added to online MACs. */
  lemma AuthenticationsEndIff(o: Origin, ws: seq<World>, steps: seq<Step>)
    requires IsRun(o, ws, steps)
    ensures (forall i :: 0 <= i < |ws| ==> R.AuthsOk(ws[i].sess))
       <==> R.AuthsOk(o.sess) && (forall j :: 0 <= j < |steps| ==> AddsOnline(ws[j], steps[j]))
  {
    hide R.AuthsOk, Startable, R.Next, S.Forest, Enabled, R.AddsOnline;
    if R.AuthsOk(o.sess) && (forall j :: 0 <= j < |steps| ==> AddsOnline(ws[j], steps[j])) {
      forall i | 0 <= i < |ws| ensures R.AuthsOk(ws[i].sess) {
        RunKeepsAuths(o, ws, steps, i);
      }
    }
    if forall i :: 0 <= i < |ws| ==> R.AuthsOk(ws[i].sess) {
      forall j | 0 <= j < |steps| ensures AddsOnline(ws[j], steps[j]) {
        assert R.AuthsOk(ws[j].sess) && R.AuthsOk(ws[j + 1].sess);
        if steps[j].Session? {
          R.NextKeepsAuthsIff(ws[j].sess, steps[j].step);
        }
      }
    }
  }
}
