/** The whole access-control protocol as a step system: any process re-evaluates a MAC, sessions come and go, and the
    manager hears about it through messages that may be delayed, reordered and duplicated. Each operation is one step. */
module NacProtocol {
  import opened Common
  import opened Authorization
  import opened Firewall
  import opened Enforcement
  import opened Coverage
  import S = Sessions
  import R = SessionRuns

  /** `disconnections` are the MAC session ends published and not yet delivered; `aborted` records that the last
      expiry check was left by an exception. */
  datatype World = World(agent: Agent, disconnections: multiset<Mac>, now: Time, sess: S.State, aborted: bool)

  /** A delivery with `last` false is a duplicate: the message stays pending, or was not pending any more. */
  datatype Step =
    | Recheck(mac: Mac, answer: Answer, reason: string)
    | RecheckAll(check: Check)
    | ChangeArrives(mac: Mac, last: bool, check: Check)
    | DisconnectionArrives(mac: Mac, last: bool, check: Check)
    | TimerFires(check: Check)
    | Tick(until: Time)
    | Session(step: R.Step)

  /** The MACs `is_online` accepts: a session seen at the epoch itself does not count. */
  function Online(s: S.State): set<Mac> {
    set k | k in s.lastSeen && k.MacKey? && s.lastSeen[k] != 0.0 :: k.mac
  }

  /** Exactly the MACs with a live session that was not seen at the epoch itself are online. */
  lemma OnlineIff(s: S.State, mac: Mac)
    requires S.Forest(s)
    ensures mac in Online(s) <==> S.MacKey(mac) in s.ids && s.lastSeen[S.MacKey(mac)] != 0.0
  {
    if S.MacKey(mac) in s.lastSeen && s.lastSeen[S.MacKey(mac)] != 0.0 {
      assert S.MacKey(mac).mac in Online(s);
    }
  }

  predicate Live(s: S.State, mac: Mac) {
    S.MacKey(mac) in s.ids
  }

  function Consumed(pending: multiset<Mac>, mac: Mac, last: bool): multiset<Mac> {
    if last then pending - multiset{mac} else pending
  }

  ghost predicate Enabled(w: World, step: Step) {
    match step
    case Recheck(_, _, _) => true
    case RecheckAll(c) => c.online == Online(w.sess)
    case ChangeArrives(mac, last, c) =>
      && (last ==> mac in w.agent.net.changes)
      && c.online == Online(w.sess) && ListsExpired(c, w.agent.net, w.now)
    case DisconnectionArrives(mac, last, c) =>
      && (last ==> mac in w.disconnections)
      && c.online == Online(w.sess) && ListsExpired(c, Disconnected(w.agent, mac).net, w.now)
    case TimerFires(c) =>
      && w.agent.timer.Some? && w.agent.timer.value <= w.now
      && c.online == Online(w.sess) && ListsExpired(c, w.agent.net, w.now)
    case Tick(until) => w.now <= until
    case Session(_) => true
  }

  /** The MACs whose session end is among the messages from position `from` on. */
  function EndedMacs(notes: seq<S.Note>, from: nat): multiset<Mac>
    decreases |notes| - from
  {
    if from >= |notes| then multiset{}
    else (if notes[from].EndMac? then multiset{notes[from].mac} else multiset{}) + EndedMacs(notes, from + 1)
  }

  predicate Completes(c: Check) {
    forall m :: m in c.order ==> !Fails(c, m)
  }

  /** One delivery of a change message takes it off the bus if it is the last. */
  function Delivered(a: Agent, mac: Mac, last: bool): Agent {
    a.(net := a.net.(changes := Consumed(a.net.changes, mac, last)))
  }

  ghost function After(w: World, step: Step): World
    requires S.Forest(w.sess)
  {
    match step
    case Recheck(mac, answer, reason) =>
      w.(agent := w.agent.(net := CheckAuthz(w.agent.net, mac, answer, reason)))
    case RecheckAll(c) =>
      w.(agent := w.agent.(net := Rechecked(w.agent.net, c)))
    case ChangeArrives(mac, last, c) =>
      w.(agent := ChangeHandled(Delivered(w.agent, mac, last), mac, c), aborted := !Completes(c))
    case DisconnectionArrives(mac, last, c) =>
      w.(agent := DisconnectionHandled(w.agent, mac, c),
         disconnections := Consumed(w.disconnections, mac, last), aborted := !Completes(c))
    case TimerFires(c) =>
      w.(agent := CheckedExpiry(w.agent, c), aborted := !Completes(c))
    case Tick(until) => w.(now := until)
    case Session(step) =>
      var s := R.Next(w.sess, step);
      w.(sess := s, disconnections := w.disconnections + EndedMacs(s.notes, |w.sess.notes|))
  }

  /** What holds in every state, up to what was left over in the nft sets at start-up. */
  ghost predicate WorldOk(w: World, stale: Stale) {
    && AgentOk(w.agent.net, w.agent.fw, stale)
    && R.Good(w.sess)
    && (if w.aborted then w.agent.timer.None? else Covered(w.agent.net, w.agent.timer))
  }

  lemma DeliveredOk(a: Agent, stale: Stale, mac: Mac, last: bool)
    requires AgentOk(a.net, a.fw, stale)
    ensures var n := Delivered(a, mac, last).net; AgentOk(n, Refreshed(n, a.fw, mac), stale)
  {
    ChangeHandledOk(a.net, a.fw, stale, mac);
    assert Refreshed(Delivered(a, mac, last).net, a.fw, mac) == Refreshed(a.net, a.fw, mac);
  }

  lemma CheckKeeps(a: Agent, stale: Stale, c: Check)
    requires AgentOk(a.net, a.fw, stale)
    ensures var a' := CheckedExpiry(a, c);
            && AgentOk(a'.net, a'.fw, stale)
            && (if Completes(c) then Covered(a'.net, a'.timer) && a'.timer == Earliest(a'.net.expiry) else a'.timer.None?)
  {
    SweepOk(a.net, a.fw, stale, c);
    SweepCompletes(a.net, a.fw, c);
    CheckCoversIff(a, c);
  }

  /** The MAC's authorization is stored and past its end date. */
  predicate Overdue(n: Net, now: Time, mac: Mac) {
    mac in n.sessions && n.sessions[mac].terms.till.Some? && n.sessions[mac].terms.till.value <= now
  }

  lemma {:induction false} SuccessVisitsAll(c: Check)
    requires Completes(c)
    ensures Visited(c) == set m | m in c.order
    decreases |c.order|
  {
    if c.order != [] {
      assert c.order == [c.order[0]] + c.order[1..];
      var rest := c.(order := c.order[1..]);
      assert forall m :: Fails(c, m) == Fails(rest, m);
      SuccessVisitsAll(rest);
    }
  }

  /** A check that succeeds leaves nothing overdue except what was granted again just now and is still to be applied;
      it touches no authorization that was not overdue. */
  lemma CheckClearsOverdue(a: Agent, c: Check, now: Time, mac: Mac)
    requires StoreOk(a.net) && LogOk(a.net) && ListsExpired(c, a.net, now) && Completes(c)
    ensures var a' := CheckedExpiry(a, c);
            && (Overdue(a'.net, now, mac) ==> mac in a'.net.changes && Overdue(a.net, now, mac))
            && (!Overdue(a.net, now, mac) ==>
                  && (mac in a'.net.sessions <==> mac in a.net.sessions)
                  && (mac in a.net.sessions ==> a'.net.sessions[mac] == a.net.sessions[mac]))
  {
    SweepOutcome(a.net, a.fw, c);
    SuccessVisitsAll(c);
    hide Swept, Visited, LogOk;
    assert mac in c.order <==> Overdue(a.net, now, mac);
  }

  lemma {:induction false} RecheckedCovered(n: Net, c: Check, timer: Option<Time>)
    requires Covered(n, timer)
    ensures Covered(Rechecked(n, c), timer)
    decreases |c.order|
  {
    if c.order != [] && !Fails(c, c.order[0]) {
      var mac := c.order[0];
      CheckAuthzLocal(n, mac, c.answers(mac), "overridden");
      RecheckedCovered(if mac in c.online then CheckAuthz(n, mac, c.answers(mac), "overridden") else n,
                       c.(order := c.order[1..]), timer);
    }
  }

  lemma StepKeeps(w: World, stale: Stale, step: Step)
    requires WorldOk(w, stale) && Enabled(w, step)
    ensures WorldOk(After(w, step), stale)
  {
    hide AgentOk, R.Good, Swept, Earliest, Refreshed, Disconnected;
    match step {
      case Recheck(mac, answer, reason) =>
        RecheckOk(w.agent.net, w.agent.fw, stale, mac, answer, reason);
        CheckAuthzLocal(w.agent.net, mac, answer, reason);
      case RecheckAll(c) =>
        RecheckedOk(w.agent.net, w.agent.fw, stale, c);
        if !w.aborted {
          RecheckedCovered(w.agent.net, c, w.agent.timer);
        }
      case ChangeArrives(mac, last, c) =>
        var a := Delivered(w.agent, mac, last);
        DeliveredOk(w.agent, stale, mac, last);
        CheckKeeps(a.(fw := Refreshed(a.net, a.fw, mac)), stale, c);
      case DisconnectionArrives(mac, last, c) =>
        DisconnectedOk(w.agent, stale, mac);
        CheckKeeps(Disconnected(w.agent, mac), stale, c);
      case TimerFires(c) =>
        CheckKeeps(w.agent, stale, c);
      case Tick(_) =>
      case Session(step) =>
        R.NextKeepsGood(w.sess, step);
    }
  }

  /** What the manager finds when it starts: Redis, the nft sets, the sessions and the clock; `check` and `macs` are
      the inputs of its first expiry check and of `init_macs`. */
  datatype Origin = Origin(net: Net, on: set<(Mac, Vlan)>, to: set<(Mac, Vlan)>, check: Check, macs: seq<Mac>,
                           now: Time, sess: S.State)

  /** Neither change messages nor session ends published before the subscription ever arrive. */
  ghost function Start(o: Origin): World {
    World(StartedUp(o.net, o.on, o.to, o.check, o.macs), multiset{}, o.now, o.sess, false)
  }

  /** The first check succeeds: otherwise there is no manager. Nothing is asked of the nft sets. */
  ghost predicate Startable(o: Origin) {
    && StoreOk(o.net) && LogOk(o.net) && R.Good(o.sess)
    && o.check.online == Online(o.sess) && ListsExpired(o.check, o.net, o.now)
    && Completes(o.check) && Lists(o.macs, Swept(o.net, BlankFw(o.on, o.to), o.check).net)
  }

  /** What the nft sets held at start-up and Redis did not grant. */
  ghost function StaleAt(o: Origin): Stale {
    StaleOf(Start(o).agent.net, o.on, o.to)
  }

  ghost predicate IsRun(o: Origin, ws: seq<World>, steps: seq<Step>) {
    && |ws| == |steps| + 1 && Startable(o) && ws[0] == Start(o)
    && forall i :: 0 <= i < |steps| ==>
         S.Forest(ws[i].sess) && Enabled(ws[i], steps[i]) && ws[i + 1] == After(ws[i], steps[i])
  }

  lemma StartIsOk(o: Origin)
    requires Startable(o)
    ensures WorldOk(Start(o), StaleAt(o)) && Start(o).agent.net.changes == multiset{}
    ensures forall m :: Matches(Start(o).agent.net, Start(o).agent.fw, m) <==> Clean(StaleAt(o), m)
  {
    hide AgentOk, R.Good, StaleOf, Initialised, Swept, LogOk, StoreOk, Matches, Clean, CheckedExpiry, Lists;
    StartUpSettles(o.net, o.on, o.to, o.check, o.macs);
  }

  lemma {:induction false} EveryStateOk(o: Origin, ws: seq<World>, steps: seq<Step>, i: nat)
    requires IsRun(o, ws, steps) && i < |ws|
    ensures WorldOk(ws[i], StaleAt(o))
  {
    hide WorldOk, Startable, Start, StaleAt, After;
    if i == 0 {
      StartIsOk(o);
    } else {
      EveryStateOk(o, ws, steps, i - 1);
      StepKeeps(ws[i - 1], StaleAt(o), steps[i - 1]);
    }
  }

  /** The condition on the sessions in the definition of a run excludes nothing: every enabled step extends a run. */
  lemma RunsExtend(o: Origin, ws: seq<World>, steps: seq<Step>, step: Step)
    requires IsRun(o, ws, steps) && Enabled(ws[|steps|], step)
    ensures S.Forest(ws[|steps|].sess) && IsRun(o, ws + [After(ws[|steps|], step)], steps + [step])
  {
    hide After, Startable, Start, Enabled, S.Forest, StaleAt, AgentOk, Covered, R.PortsOk, R.IdsOk, R.RemoteOk;
    EveryStateOk(o, ws, steps, |steps|);
    var ws', steps' := ws + [After(ws[|steps|], step)], steps + [step];
    forall i | 0 <= i < |steps'|
      ensures S.Forest(ws'[i].sess) && Enabled(ws'[i], steps'[i]) && ws'[i + 1] == After(ws'[i], steps'[i])
    {
      if i < |steps| {
        assert ws'[i] == ws[i] && steps'[i] == steps[i] && ws'[i + 1] == ws[i + 1];
      }
    }
  }

  /** In every state of every run, a MAC whose change messages have all been delivered has the VLANs of its stored
      authorization open, and none besides unless it was left over in the nft sets at start-up, whatever the order and
      number of deliveries. With nothing left over for this MAC, exactly its stored VLANs are open. */
  lemma FirewallFollowsStore(o: Origin, ws: seq<World>, steps: seq<Step>, i: nat, mac: Mac)
    requires IsRun(o, ws, steps) && i < |ws|
    ensures mac in ws[i].agent.net.changes || Agrees(ws[i].agent.net, ws[i].agent.fw, StaleAt(o), mac)
    ensures Clean(StaleAt(o), mac) && mac !in ws[i].agent.net.changes ==>
              var n, fw := ws[i].agent.net, ws[i].agent.fw;
              && Matches(n, fw, mac)
              && (forall v :: (mac, v) in fw.on.elements <==> mac in n.sessions && v in n.sessions[mac].terms.allowOn)
              && (forall v :: (mac, v) in fw.to.elements <==> mac in n.sessions && v in n.sessions[mac].terms.bridgeTo)
  {
    hide Agrees, Clean, StaleAt, R.Good, StoreOk, LogOk, FwOk, IsRun;
    EveryStateOk(o, ws, steps, i);
    if mac !in ws[i].agent.net.changes && Clean(StaleAt(o), mac) {
      CleanMatches(ws[i].agent.net, ws[i].agent.fw, StaleAt(o), mac);
    }
  }

  /** For each MAC by itself that condition is exact. */
  lemma FirewallFollowsStoreIff(o: Origin, ws: seq<World>, steps: seq<Step>, mac: Mac)
    requires IsRun(o, ws, steps)
    ensures (forall i :: 0 <= i < |ws| ==> mac in ws[i].agent.net.changes || Matches(ws[i].agent.net, ws[i].agent.fw, mac))
       <==> Clean(StaleAt(o), mac)
  {
    StartIsOk(o);
    hide Matches, Clean, StaleAt, Startable, Start, WorldOk, Enabled, After;
    if Clean(StaleAt(o), mac) {
      forall i | 0 <= i < |ws| ensures mac in ws[i].agent.net.changes || Matches(ws[i].agent.net, ws[i].agent.fw, mac) {
        FirewallFollowsStore(o, ws, steps, i, mac);
      }
    }
  }

  /** And it is not idle: an element left over in an nft set, with nothing stored, stays open. */
  lemma LeftoverStaysOpen(mac: Mac, vlan: Vlan, now: Time) returns (o: Origin)
    ensures Startable(o) && o.net.sessions == map[] && o.on == {(mac, vlan)} && (mac, vlan) in Start(o).agent.fw.on.elements
    ensures !Clean(StaleAt(o), mac) && !Matches(Start(o).agent.net, Start(o).agent.fw, mac)
  {
    var n := Net(map[], map[], 0, [], multiset{});
    o := Origin(n, {(mac, vlan)}, {}, Check([], {}, _ => CallFailed), [], now, S.EMPTY);
    R.EmptyIsGood();
    assert Startable(o);
    StartIsOk(o);
    assert (mac, vlan) in StaleAt(o).on;
  }

  /** The expiry check of a step, if it has one. */
  function CheckOf(step: Step): Option<Check> {
    match step
    case ChangeArrives(_, _, c) => Some(c)
    case DisconnectionArrives(_, _, c) => Some(c)
    case TimerFires(c) => Some(c)
    case _ => None
  }

  /** A remote call failed during the last expiry check. */
  predicate LastCheckFailed(steps: seq<Step>) {
    steps != [] &&
    match CheckOf(steps[|steps| - 1])
    case Some(c) => !Completes(c)
    case None => LastCheckFailed(steps[..|steps| - 1])
  }

  lemma AbortedAfter(w: World, step: Step)
    requires S.Forest(w.sess)
    ensures After(w, step).aborted == match CheckOf(step) case Some(c) => !Completes(c) case None => w.aborted
  {
    hide S.Forest, ChangeHandled, DisconnectionHandled, CheckedExpiry, CheckAuthz, Rechecked, R.Next;
  }

  lemma {:induction false} AbortedIsLastCheck(o: Origin, ws: seq<World>, steps: seq<Step>, i: nat)
    requires IsRun(o, ws, steps) && i < |ws|
    ensures ws[i].aborted <==> LastCheckFailed(steps[..i])
  {
    hide After, Enabled, Startable, S.Forest;
    if i > 0 {
      AbortedIsLastCheck(o, ws, steps, i - 1);
      AbortedAfter(ws[i - 1], steps[i - 1]);
      assert steps[..i][..i - 1] == steps[..i - 1] && steps[..i][i - 1] == steps[i - 1];
    }
  }

  /** Every finite expiry has a change message pending. */
  ghost predicate AllAnnounced(n: Net) {
    forall m :: m in n.expiry && n.expiry[m].At? ==> m in n.changes
  }

  /** In every state of every run: every finite expiry is covered by a pending message or by the timer if and only if no
      remote call failed during the last expiry check, or all are announced anyway. */
  lemma CoveredIff(o: Origin, ws: seq<World>, steps: seq<Step>, i: nat)
    requires IsRun(o, ws, steps) && i < |ws|
    ensures Covered(ws[i].agent.net, ws[i].agent.timer) <==> !LastCheckFailed(steps[..i]) || AllAnnounced(ws[i].agent.net)
  {
    hide IsRun, AgentOk, R.Good, LastCheckFailed;
    EveryStateOk(o, ws, steps, i);
    AbortedIsLastCheck(o, ws, steps, i);
  }

  /** So if the last expiry check succeeded, a MAC with no message pending and no timer due has nothing open beyond its
      expiry, except what was left over at start-up. */
  lemma NothingOpenBeyondExpiry(o: Origin, ws: seq<World>, steps: seq<Step>, i: nat, mac: Mac, vlan: Vlan)
    requires IsRun(o, ws, steps) && i < |ws| && !LastCheckFailed(steps[..i])
    ensures var w := ws[i]; var n := w.agent.net;
            && mac !in n.changes && (w.agent.timer.Some? ==> w.agent.timer.value > w.now)
            && ((mac, vlan) in w.agent.fw.on.elements - StaleAt(o).on || (mac, vlan) in w.agent.fw.to.elements - StaleAt(o).to)
            ==> mac in n.sessions && (n.sessions[mac].terms.till.Some? ==> n.sessions[mac].terms.till.value > w.now)
  {
    hide IsRun, R.Good, LogOk, FwOk, LastCheckFailed, StaleAt;
    EveryStateOk(o, ws, steps, i);
    AbortedIsLastCheck(o, ws, steps, i);
    var w := ws[i];
    if mac !in w.agent.net.changes {
      assert Agrees(w.agent.net, w.agent.fw, StaleAt(o), mac);
    }
  }

  /** Per MAC the published session events alternate, each end carries the id of the opening it closes, ids are never
      reused, the open authorizations are the stored ones, and the expiry set agrees with the store. */
  lemma EventsAlternate(o: Origin, ws: seq<World>, steps: seq<Step>, i: nat, mac: Mac)
    requires IsRun(o, ws, steps) && i < |ws|
    ensures var n := ws[i].agent.net; var events := EventsOf(n.log, mac);
            && StoreOk(n) && Alternates(events)
            && (mac in n.sessions <==> |events| % 2 == 1)
            && (mac in n.sessions ==> events[|events| - 1] == Opened(mac, n.sessions[mac].id, n.sessions[mac].terms))
            && (forall j, k :: 0 <= j < k < |n.log| && n.log[j].Opened? && n.log[k].Opened? ==>
                  n.log[j].id != n.log[k].id)
  {
    EveryStateOk(o, ws, steps, i);
    var log := ws[i].agent.net.log;
    AcceptedAlternates(log, mac);
    forall j: nat, k: nat | j < k < |log| && log[j].Opened? && log[k].Opened? ensures log[j].id != log[k].id {
      AcceptedIdsAreFresh(log, j, k);
    }
  }
}
