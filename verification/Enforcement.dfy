/** elan/nac/manager.py as functions on values: what each whole operation of the manager does to Redis, the
    firewall and the expiry timer. The class in Manager.dfy is proved against these. */
module Enforcement {
  import opened Common
  import opened Authorization
  import opened Firewall

  /** `timer` is the time at which the one armed timer fires. */
  datatype Agent = Agent(net: Net, fw: Fw, timer: Option<Time>)

  /** The inputs of one expiry check: the expired MACs in the order Redis lists them, the MACs that
      `session.is_online` accepts, and the remote answers. */
  datatype Check = Check(order: seq<Mac>, online: set<Mac>, answers: Mac -> Answer)

  function StoredOn(n: Net, mac: Mac): set<Vlan> {
    if mac in n.sessions then n.sessions[mac].terms.allowOn else {}
  }

  function StoredTo(n: Net, mac: Mac): set<Vlan> {
    if mac in n.sessions then n.sessions[mac].terms.bridgeTo else {}
  }

  /** `authzChanged` of the manager: whatever the message said, it is Redis that is applied. */
  function Refreshed(n: Net, fw: Fw, mac: Mac): Fw {
    Allowed(fw, mac, StoredOn(n, mac), StoredTo(n, mac))
  }

  /** The Redis half of `removeAuthz`. */
  function Dropped(n: Net, mac: Mac, reason: string): Net {
    if mac in n.sessions then Removed(n, mac, reason) else n
  }

  predicate Fails(c: Check, mac: Mac) {
    mac in c.online && c.answers(mac).CallFailed?
  }

  /** The body of the loop of `check_expired_authz` for one MAC. */
  function Expired(n: Net, mac: Mac, c: Check): Net {
    var n1 := Dropped(n, mac, "expired");
    if mac in c.online then CheckAuthz(n1, mac, c.answers(mac), "overridden") else n1
  }

  datatype Sweep = Sweep(net: Net, fw: Fw, ok: bool)

  /** The loop of `check_expired_authz`. `thread.run()` runs in the calling thread, so an exception of the
      remote call leaves the loop. */
  function Swept(n: Net, fw: Fw, c: Check): Sweep
    decreases |c.order|
  {
    if c.order == [] then Sweep(n, fw, true)
    else
      var mac := c.order[0];
      var n1, fw1 := Expired(n, mac, c), Allowed(fw, mac, {}, {});
      if Fails(c, mac) then Sweep(n1, fw1, false) else Swept(n1, fw1, c.(order := c.order[1..]))
  }

  /** The MACs the loop gets to. */
  function Visited(c: Check): set<Mac>
    decreases |c.order|
  {
    if c.order == [] then {}
    else if Fails(c, c.order[0]) then {c.order[0]}
    else {c.order[0]} + Visited(c.(order := c.order[1..]))
  }

  ghost predicate IsEarliest(expiry: map<Mac, Expiry>, t: Time) {
    && (exists m :: m in expiry && expiry[m] == At(t))
    && (forall m :: m in expiry && expiry[m].At? ==> t <= expiry[m].time)
  }

  lemma {:induction false} EarliestExists(expiry: map<Mac, Expiry>, mac: Mac)
    requires mac in expiry && expiry[mac].At?
    ensures exists t :: IsEarliest(expiry, t)
    decreases |expiry|
  {
    var rest := expiry - {mac};
    if exists m :: m in rest && rest[m].At? {
      var m :| m in rest && rest[m].At?;
      assert expiry.Keys == rest.Keys + {mac};
      EarliestExists(rest, m);
      var t :| IsEarliest(rest, t);
      var w :| w in rest && rest[w] == At(t);
      assert expiry[w] == At(t) && expiry[mac] == At(expiry[mac].time);
      assert IsEarliest(expiry, if t <= expiry[mac].time then t else expiry[mac].time);
    } else {
      assert expiry[mac] == At(expiry[mac].time);
      assert forall m :: m in expiry && expiry[m].At? ==> m in rest || m == mac;
      assert IsEarliest(expiry, expiry[mac].time);
    }
  }

  /** The first finite score of the sorted set, if there is one. */
  ghost function Earliest(expiry: map<Mac, Expiry>): (r: Option<Time>)
    ensures r.None? <==> forall m :: m in expiry ==> expiry[m].Never?
    ensures r.Some? ==> IsEarliest(expiry, r.value)
  {
    if m :| m in expiry && expiry[m].At? then
      EarliestExists(expiry, m);
      var t :| IsEarliest(expiry, t);
      Some(t)
    else None
  }

  /** `check_expired_authz`: the old timer is cancelled first, a new one is armed last. */
  ghost function CheckedExpiry(a: Agent, c: Check): Agent {
    var s := Swept(a.net, a.fw, c);
    Agent(s.net, s.fw, if s.ok then Earliest(s.net.expiry) else None)
  }

  ghost function ChangeHandled(a: Agent, mac: Mac, c: Check): Agent {
    CheckedExpiry(a.(fw := Refreshed(a.net, a.fw, mac)), c)
  }

  /** `removeAuthz` followed by `authzChanged`, for a till-disconnect authorization only. */
  function Disconnected(a: Agent, mac: Mac): Agent {
    if mac in a.net.sessions && a.net.sessions[mac].terms.tillDisconnect then
      var n := Removed(a.net, mac, "disconnected");
      Agent(n, Refreshed(n, Allowed(a.fw, mac, {}, {}), mac), a.timer)
    else a
  }

  ghost function DisconnectionHandled(a: Agent, mac: Mac, c: Check): Agent {
    CheckedExpiry(Disconnected(a, mac), c)
  }

  /** `check_authz` on a list of MACs; it stops at the first remote failure. */
  function Rechecked(n: Net, c: Check): Net
    decreases |c.order|
  {
    if c.order == [] then n
    else if Fails(c, c.order[0]) then n
    else
      var mac := c.order[0];
      var n1 := if mac in c.online then CheckAuthz(n, mac, c.answers(mac), "overridden") else n;
      Rechecked(n1, c.(order := c.order[1..]))
  }

  // What holds between messages.

  /** What is open for `mac` is what is stored for it. */
  ghost predicate Matches(n: Net, fw: Fw, mac: Mac) {
    && OpenExactly(fw.on.elements, mac, StoredOn(n, mac))
    && OpenExactly(fw.to.elements, mac, StoredTo(n, mac))
  }

  /** The same, but for what was left over in the nft sets. */
  ghost predicate Agrees(n: Net, fw: Fw, stale: Stale, mac: Mac) {
    && OpenUpTo(fw.on.elements, mac, StoredOn(n, mac), stale.on)
    && OpenUpTo(fw.to.elements, mac, StoredTo(n, mac), stale.to)
  }

  ghost predicate Clean(stale: Stale, mac: Mac) {
    CleanAt(stale.on, mac) && CleanAt(stale.to, mac)
  }

  lemma CleanMatches(n: Net, fw: Fw, stale: Stale, mac: Mac)
    requires Agrees(n, fw, stale, mac) && Clean(stale, mac)
    ensures Matches(n, fw, mac)
  {
  }

  ghost predicate Synced(n: Net, fw: Fw, stale: Stale) {
    forall m :: m in n.changes || Agrees(n, fw, stale, m)
  }

  ghost predicate AgentOk(n: Net, fw: Fw, stale: Stale) {
    StoreOk(n) && LogOk(n) && FwOk(fw, stale) && Synced(n, fw, stale)
  }

  /** Every finite expiry is announced by a pending change message or covered by the timer. */
  ghost predicate Covered(n: Net, timer: Option<Time>) {
    forall m :: m in n.expiry && n.expiry[m].At? ==>
                m in n.changes || (timer.Some? && timer.value <= n.expiry[m].time)
  }

  /** What `zrangebyscore` lists for a check at the time `now`. */
  ghost predicate ListsExpired(c: Check, n: Net, now: Time) {
    && Distinct(c.order)
    && (forall m :: m in c.order <==> m in n.expiry && n.expiry[m].At? && n.expiry[m].time <= now)
  }

  lemma RecheckOk(n: Net, fw: Fw, stale: Stale, mac: Mac, answer: Answer, reason: string)
    requires AgentOk(n, fw, stale)
    ensures AgentOk(CheckAuthz(n, mac, answer, reason), fw, stale)
  {
    var n' := CheckAuthz(n, mac, answer, reason);
    CheckAuthzOk(n, mac, answer, reason);
    CheckAuthzLocal(n, mac, answer, reason);
    hide CheckAuthz, StoreOk, LogOk, FwOk, OpenUpTo;
    forall m ensures m in n'.changes || Agrees(n', fw, stale, m) {
      assert m in n.changes || Agrees(n, fw, stale, m);
    }
  }

  /** Applying Redis to the firewall settles `mac` itself and disturbs no other MAC. */
  lemma RefreshOk(n: Net, fw: Fw, stale: Stale, mac: Mac)
    requires FwOk(fw, stale)
    ensures FwOk(Refreshed(n, fw, mac), stale) && Agrees(n, Refreshed(n, fw, mac), stale, mac)
    ensures forall m :: m != mac && Agrees(n, fw, stale, m) ==> Agrees(n, Refreshed(n, fw, mac), stale, m)
  {
    AllowedIsExact(fw, mac, StoredOn(n, mac), StoredTo(n, mac), stale);
    hide Allowed, FwOk, StoredOn, StoredTo;
  }

  /** Removing an authorization closes the firewall for its MAC and disturbs no other. */
  lemma DropLocal(n: Net, fw: Fw, stale: Stale, mac: Mac, reason: string)
    requires FwOk(fw, stale)
    ensures var n', fw' := Dropped(n, mac, reason), Allowed(fw, mac, {}, {});
            && SameElsewhere(n, n', mac) && mac !in n'.sessions && FwOk(fw', stale) && Agrees(n', fw', stale, mac)
            && forall m :: m != mac && Agrees(n, fw, stale, m) ==> Agrees(n', fw', stale, m)
  {
    AllowedIsExact(fw, mac, {}, {}, stale);
    hide Allowed, FwOk;
  }

  lemma DropOk(n: Net, fw: Fw, stale: Stale, mac: Mac, reason: string)
    requires AgentOk(n, fw, stale)
    ensures AgentOk(Dropped(n, mac, reason), Allowed(fw, mac, {}, {}), stale)
  {
    var n', fw' := Dropped(n, mac, reason), Allowed(fw, mac, {}, {});
    if mac in n.sessions {
      RemovedOk(n, mac, reason);
    }
    DropLocal(n, fw, stale, mac, reason);
    hide Allowed, FwOk, LogOk, StoreOk, Agrees;
    forall m ensures m in n'.changes || Agrees(n', fw', stale, m) {
      assert m in n.changes || Agrees(n, fw, stale, m);
    }
  }

  lemma {:induction false} SweepOk(n: Net, fw: Fw, stale: Stale, c: Check)
    requires AgentOk(n, fw, stale)
    ensures AgentOk(Swept(n, fw, c).net, Swept(n, fw, c).fw, stale)
    decreases |c.order|
  {
    if c.order != [] {
      var mac := c.order[0];
      DropOk(n, fw, stale, mac, "expired");
      var n1, fw1 := Dropped(n, mac, "expired"), Allowed(fw, mac, {}, {});
      if mac in c.online {
        RecheckOk(n1, fw1, stale, mac, c.answers(mac), "overridden");
      }
      if !Fails(c, mac) {
        SweepOk(Expired(n, mac, c), fw1, stale, c.(order := c.order[1..]));
      }
    }
  }

  /** A consumed change message, seen in isolation: with `mac` settled, only the others need their message. */
  lemma ChangeHandledOk(n: Net, fw: Fw, stale: Stale, mac: Mac)
    requires AgentOk(n, fw, stale)
    ensures AgentOk(n, Refreshed(n, fw, mac), stale)
    ensures AgentOk(n.(changes := n.changes - multiset{mac}), Refreshed(n, fw, mac), stale)
  {
    var n', fw' := n.(changes := n.changes - multiset{mac}), Refreshed(n, fw, mac);
    RefreshOk(n, fw, stale, mac);
    hide Refreshed, FwOk, OpenUpTo, Track;
    forall m ensures m in n.changes || Agrees(n, fw', stale, m) ensures m in n'.changes || Agrees(n', fw', stale, m) {
      assert m in n.changes || Agrees(n, fw, stale, m);
      assert Agrees(n', fw', stale, m) == Agrees(n, fw', stale, m);
    }
  }

  lemma DisconnectedOk(a: Agent, stale: Stale, mac: Mac)
    requires AgentOk(a.net, a.fw, stale)
    ensures AgentOk(Disconnected(a, mac).net, Disconnected(a, mac).fw, stale)
  {
    if mac in a.net.sessions && a.net.sessions[mac].terms.tillDisconnect {
      DropOk(a.net, a.fw, stale, mac, "disconnected");
      ChangeHandledOk(Removed(a.net, mac, "disconnected"), Allowed(a.fw, mac, {}, {}), stale, mac);
    }
  }

  /** A disconnection costs the MAC its till-disconnect authorization and closes the firewall for it; any other
      authorization, and every other MAC, is untouched. */
  lemma DisconnectedOutcome(a: Agent, stale: Stale, mac: Mac)
    requires AgentOk(a.net, a.fw, stale)
    ensures var a' := Disconnected(a, mac);
            && SameElsewhere(a.net, a'.net, mac) && a'.timer == a.timer
            && (mac in a'.net.sessions <==> mac in a.net.sessions && !a.net.sessions[mac].terms.tillDisconnect)
            && (a' == a <==> !(mac in a.net.sessions && a.net.sessions[mac].terms.tillDisconnect))
            && (a' != a ==> a'.net.log == a.net.log + [Closed(mac, a.net.sessions[mac].id, "disconnected")])
            && (a' == a || (OpenUpTo(a'.fw.on.elements, mac, {}, stale.on) && OpenUpTo(a'.fw.to.elements, mac, {}, stale.to)))
            && (forall m :: m != mac && Agrees(a.net, a.fw, stale, m) ==> Agrees(a'.net, a'.fw, stale, m))
  {
    if mac in a.net.sessions && a.net.sessions[mac].terms.tillDisconnect {
      var n, fw := Removed(a.net, mac, "disconnected"), Allowed(a.fw, mac, {}, {});
      assert n.log == a.net.log + [Closed(mac, a.net.sessions[mac].id, "disconnected")];
      hide LogOk, StoreOk, FwOk, Synced, Removed, Allowed, Refreshed;
      DropLocal(a.net, a.fw, stale, mac, "disconnected");
      RefreshOk(n, fw, stale, mac);
    }
  }

  lemma {:induction false} RecheckedOk(n: Net, fw: Fw, stale: Stale, c: Check)
    requires AgentOk(n, fw, stale)
    ensures AgentOk(Rechecked(n, c), fw, stale)
    decreases |c.order|
  {
    if c.order != [] && !Fails(c, c.order[0]) {
      var mac := c.order[0];
      RecheckOk(n, fw, stale, mac, c.answers(mac), "overridden");
      RecheckedOk(if mac in c.online then CheckAuthz(n, mac, c.answers(mac), "overridden") else n, fw, stale,
                  c.(order := c.order[1..]));
    }
  }
}
