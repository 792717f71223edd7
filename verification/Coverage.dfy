/** When the expiry timer can be relied on, and what a start-up against a non-empty firewall achieves. */
module Coverage {
  import opened Common
  import opened Authorization
  import opened Firewall
  import opened Enforcement

  // The expiry check.

  lemma ExpiredOk(n: Net, mac: Mac, c: Check)
    requires StoreOk(n) && LogOk(n)
    ensures StoreOk(Expired(n, mac, c)) && LogOk(Expired(n, mac, c))
  {
    if mac in n.sessions {
      RemovedOk(n, mac, "expired");
    }
    CheckAuthzOk(Dropped(n, mac, "expired"), mac, c.answers(mac), "overridden");
  }

  lemma ExpiredLocal(n: Net, mac: Mac, c: Check)
    requires StoreOk(n)
    ensures var n' := Expired(n, mac, c);
            && SameElsewhere(n, n', mac)
            && (forall m :: m != mac ==> n'.changes[m] == n.changes[m]) && n.changes <= n'.changes
            && (mac in n'.expiry ==> mac in n'.changes)
  {
  }

  /** A MAC the loop got to is gone or freshly announced; every other MAC is as it was. */
  ghost predicate SweepEffect(n: Net, n': Net, visited: set<Mac>) {
    && n.changes <= n'.changes
    && (forall m :: m in visited && m in n'.expiry ==> m in n'.changes)
    && (forall m :: m !in visited ==>
          && n'.changes[m] == n.changes[m]
          && (m in n'.expiry <==> m in n.expiry) && (m in n'.sessions <==> m in n.sessions)
          && (m in n.expiry ==> n'.expiry[m] == n.expiry[m])
          && (m in n.sessions ==> n'.sessions[m] == n.sessions[m]))
  }

  lemma SweepEffectStep(n: Net, n1: Net, n2: Net, mac: Mac, visited: set<Mac>)
    requires SameElsewhere(n, n1, mac) && n.changes <= n1.changes && (mac in n1.expiry ==> mac in n1.changes)
    requires forall m :: m != mac ==> n1.changes[m] == n.changes[m]
    requires SweepEffect(n1, n2, visited)
    ensures SweepEffect(n, n2, {mac} + visited)
  {
  }

  lemma {:induction false} SweepCompletes(n: Net, fw: Fw, c: Check)
    ensures Swept(n, fw, c).ok <==> forall m :: m in c.order ==> !Fails(c, m)
    decreases |c.order|
  {
    if c.order != [] {
      var mac, c1 := c.order[0], c.(order := c.order[1..]);
      assert c.order == [mac] + c1.order;
      assert forall m :: Fails(c, m) == Fails(c1, m);
      SweepCompletes(Expired(n, mac, c), Allowed(fw, mac, {}, {}), c1);
    }
  }

  lemma {:induction false} SweepOutcome(n: Net, fw: Fw, c: Check)
    requires StoreOk(n) && LogOk(n)
    ensures StoreOk(Swept(n, fw, c).net) && LogOk(Swept(n, fw, c).net)
    ensures SweepEffect(n, Swept(n, fw, c).net, Visited(c))
    decreases |c.order|
  {
    if c.order != [] {
      var mac := c.order[0];
      var n1, c1 := Expired(n, mac, c), c.(order := c.order[1..]);
      ExpiredOk(n, mac, c);
      ExpiredLocal(n, mac, c);
      if Fails(c, mac) {
        SweepEffectStep(n, n1, n1, mac, {});
        assert {mac} + {} == {mac};
      } else {
        SweepOutcome(n1, Allowed(fw, mac, {}, {}), c1);
        SweepEffectStep(n, n1, Swept(n, fw, c).net, mac, Visited(c1));
      }
    }
  }

  /** The check leaves every finite expiry covered exactly when no remote call it makes fails, or when the
      MACs it did not get to all had a change message pending anyway. A failing call loses the timer. */
  lemma CheckCoversIff(a: Agent, c: Check)
    requires StoreOk(a.net) && LogOk(a.net)
    ensures Covered(CheckedExpiry(a, c).net, CheckedExpiry(a, c).timer)
       <==> ( || (forall m :: m in c.order ==> !Fails(c, m))
              || (forall m :: m in a.net.expiry && a.net.expiry[m].At? && m !in Visited(c) ==> m in a.net.changes))
  {
    SweepOutcome(a.net, a.fw, c);
    SweepCompletes(a.net, a.fw, c);
    var s := Swept(a.net, a.fw, c);
    assert SweepEffect(a.net, s.net, Visited(c));
    if !s.ok && (exists m :: m in a.net.expiry && a.net.expiry[m].At? && m !in Visited(c) && m !in a.net.changes) {
      var m :| m in a.net.expiry && a.net.expiry[m].At? && m !in Visited(c) && m !in a.net.changes;
      assert m in s.net.expiry && s.net.expiry[m].At? && m !in s.net.changes;
    }
  }

  /** The failing family is not empty: at the time `now` one authorization has run out and its MAC is online; the remote
      call for it fails, and another authorization that ends later is left without a timer. */
  lemma FailedCheckLosesTimer(a: Agent, gone: Mac, kept: Mac, t: Time, now: Time)
    requires StoreOk(a.net) && LogOk(a.net) && gone != kept
    requires ListsExpired(Check([gone], {gone}, _ => CallFailed), a.net, now)
    requires kept in a.net.expiry && a.net.expiry[kept] == At(t) && now < t && kept !in a.net.changes
    ensures var a' := CheckedExpiry(a, Check([gone], {gone}, _ => CallFailed));
            && kept in a'.net.expiry && a'.net.expiry[kept] == At(t) && a'.timer == None
            && !Covered(a'.net, a'.timer)
  {
    var c := Check([gone], {gone}, _ => CallFailed);
    assert gone in c.order && Fails(c, gone);
    assert Visited(c) == {gone};
    SweepOutcome(a.net, a.fw, c);
    SweepCompletes(a.net, a.fw, c);
    CheckCoversIff(a, c);
  }

  // Start-up.

  /** `init_macs`. */
  function Initialised(n: Net, fw: Fw, macs: seq<Mac>): Fw
    decreases |macs|
  {
    if macs == [] then fw
    else
      var fw1 := if macs[0] in n.sessions then Refreshed(n, fw, macs[0]) else fw;
      Initialised(n, fw1, macs[1..])
  }

  /** A freshly constructed manager has empty caches, whatever nft already holds. */
  function BlankFw(on: set<(Mac, Vlan)>, to: set<(Mac, Vlan)>): Fw {
    Fw(Side(map[], on), Side(map[], to))
  }

  /** The constructor and the subscription: change messages published before the subscription never arrive. */
  ghost function StartedUp(n: Net, on: set<(Mac, Vlan)>, to: set<(Mac, Vlan)>, c: Check, macs: seq<Mac>): Agent {
    var a := CheckedExpiry(Agent(n, BlankFw(on, to), None), c);
    Agent(a.net.(changes := multiset{}), Initialised(a.net, a.fw, macs), a.timer)
  }

  /** With nothing cached, closing a MAC sends no command. */
  lemma {:induction false} SweepBlank(n: Net, on: set<(Mac, Vlan)>, to: set<(Mac, Vlan)>, c: Check)
    ensures Swept(n, BlankFw(on, to), c).fw == BlankFw(on, to)
    decreases |c.order|
  {
    if c.order != [] {
      var mac := c.order[0];
      var fw1 := Allowed(BlankFw(on, to), mac, {}, {});
      assert Pairs(mac, {}) == {} && fw1 == BlankFw(on, to);
      SweepBlank(Expired(n, mac, c), on, to, c.(order := c.order[1..]));
    }
  }

  function OnMap(n: Net): map<Mac, set<Vlan>> {
    map m | m in n.sessions :: n.sessions[m].terms.allowOn
  }

  function ToMap(n: Net): map<Mac, set<Vlan>> {
    map m | m in n.sessions :: n.sessions[m].terms.bridgeTo
  }

  /** `s` holds the initial elements and everything wanted by the MACs in `done`, and caches just the latter. */
  ghost predicate Filled(s: Side, initial: set<(Mac, Vlan)>, want: map<Mac, set<Vlan>>, done: set<Mac>) {
    && Compact(s.cache)
    && (forall m, v :: (m, v) in s.elements <==> (m, v) in initial || (m in done && v in Cached(want, m)))
    && (forall m :: Cached(s.cache, m) == if m in done then Cached(want, m) else {})
  }

  lemma FilledStep(s: Side, initial: set<(Mac, Vlan)>, want: map<Mac, set<Vlan>>, done: set<Mac>, mac: Mac)
    requires Filled(s, initial, want, done)
    ensures Filled(Reconciled(s, mac, Cached(want, mac)), initial, want, done + {mac})
  {
    var r := Reconciled(s, mac, Cached(want, mac));
    var have := Cached(s.cache, mac);
    assert have - Cached(want, mac) == {};
    assert forall m, v :: (m, v) in r.elements <==> (m, v) in s.elements || (m == mac && v in Cached(want, mac) - have);
  }

  function Listed(n: Net, macs: seq<Mac>): set<Mac> {
    set m | m in macs && m in n.sessions
  }

  lemma {:induction false} InitialisedFills(n: Net, fw: Fw, macs: seq<Mac>, on: set<(Mac, Vlan)>,
                                            to: set<(Mac, Vlan)>, done: set<Mac>)
    requires Filled(fw.on, on, OnMap(n), done) && Filled(fw.to, to, ToMap(n), done)
    ensures Filled(Initialised(n, fw, macs).on, on, OnMap(n), done + Listed(n, macs))
    ensures Filled(Initialised(n, fw, macs).to, to, ToMap(n), done + Listed(n, macs))
    decreases |macs|
  {
    hide Filled, Reconciled;
    if macs == [] {
      assert done + Listed(n, macs) == done;
    } else {
      var mac, rest := macs[0], macs[1..];
      assert macs == [mac] + rest;
      if mac in n.sessions {
        FilledStep(fw.on, on, OnMap(n), done, mac);
        FilledStep(fw.to, to, ToMap(n), done, mac);
        InitialisedFills(n, Refreshed(n, fw, mac), rest, on, to, done + {mac});
        assert done + Listed(n, macs) == done + {mac} + Listed(n, rest);
      } else {
        InitialisedFills(n, fw, rest, on, to, done);
        assert Listed(n, macs) == Listed(n, rest);
      }
    }
  }

  /** `init_macs` lists every stored MAC. */
  ghost predicate Lists(macs: seq<Mac>, n: Net) {
    forall m :: m in macs <==> m in n.sessions
  }

  lemma InitialisedIsUnion(n: Net, on: set<(Mac, Vlan)>, to: set<(Mac, Vlan)>, macs: seq<Mac>)
    requires Lists(macs, n)
    ensures FilledFw(n, Initialised(n, BlankFw(on, to), macs), on, to)
  {
    hide Initialised, Filled;
    assert Filled(BlankFw(on, to).on, on, OnMap(n), {}) && Filled(BlankFw(on, to).to, to, ToMap(n), {}) by {
      BlankIsFilled(on, OnMap(n));
      BlankIsFilled(to, ToMap(n));
    }
    InitialisedFills(n, BlankFw(on, to), macs, on, to, {});
    assert {} + Listed(n, macs) == n.sessions.Keys;
  }

  lemma BlankIsFilled(initial: set<(Mac, Vlan)>, want: map<Mac, set<Vlan>>)
    ensures Filled(Side(map[], initial), initial, want, {})
  {
  }

  ghost predicate FilledFw(n: Net, fw: Fw, on: set<(Mac, Vlan)>, to: set<(Mac, Vlan)>) {
    Filled(fw.on, on, OnMap(n), n.sessions.Keys) && Filled(fw.to, to, ToMap(n), n.sessions.Keys)
  }

  /** What an nft set holds beyond what is wanted. */
  function Beyond(initial: set<(Mac, Vlan)>, want: map<Mac, set<Vlan>>): set<(Mac, Vlan)> {
    set p | p in initial && p.1 !in Cached(want, p.0)
  }

  /** The elements left over after start-up: present before, and not granted by what is stored. */
  function StaleOf(n: Net, on: set<(Mac, Vlan)>, to: set<(Mac, Vlan)>): Stale {
    Stale(Beyond(on, OnMap(n)), Beyond(to, ToMap(n)))
  }

  lemma SideSettles(s: Side, initial: set<(Mac, Vlan)>, want: map<Mac, set<Vlan>>, mac: Mac)
    requires Filled(s, initial, want, want.Keys)
    ensures SideOk(s, Beyond(initial, want)) && OpenUpTo(s.elements, mac, Cached(want, mac), Beyond(initial, want))
    ensures OpenExactly(s.elements, mac, Cached(want, mac)) <==> CleanAt(Beyond(initial, want), mac)
  {
    var stale := Beyond(initial, want);
    assert forall v :: (mac, v) in stale <==> (mac, v) in s.elements && v !in Cached(want, mac);
  }

  /** The nft sets are not flushed: initialisation settles a MAC exactly when they held nothing stale for it. */
  lemma FilledSettlesIff(n: Net, fw: Fw, on: set<(Mac, Vlan)>, to: set<(Mac, Vlan)>, mac: Mac)
    requires FilledFw(n, fw, on, to)
    ensures FwOk(fw, StaleOf(n, on, to)) && Agrees(n, fw, StaleOf(n, on, to), mac)
    ensures Matches(n, fw, mac) <==> Clean(StaleOf(n, on, to), mac)
  {
    assert OnMap(n).Keys == n.sessions.Keys && Cached(OnMap(n), mac) == StoredOn(n, mac);
    assert ToMap(n).Keys == n.sessions.Keys && Cached(ToMap(n), mac) == StoredTo(n, mac);
    hide Filled, OpenUpTo, OpenExactly, SideOk, Beyond, CleanAt;
    SideSettles(fw.on, on, OnMap(n), mac);
    SideSettles(fw.to, to, ToMap(n), mac);
  }

  lemma ChangesDoNotMatter(n: Net, changes: multiset<Mac>, fw: Fw, on: set<(Mac, Vlan)>, to: set<(Mac, Vlan)>)
    ensures var n' := n.(changes := changes);
            && (LogOk(n') <==> LogOk(n)) && StaleOf(n', on, to) == StaleOf(n, on, to)
            && (forall m :: Matches(n', fw, m) <==> Matches(n, fw, m))
            && (forall m :: Agrees(n', fw, StaleOf(n, on, to), m) <==> Agrees(n, fw, StaleOf(n, on, to), m))
  {
    var n' := n.(changes := changes);
    assert OnMap(n') == OnMap(n) && ToMap(n') == ToMap(n);
    hide OpenUpTo, OpenExactly, Track, Beyond;
  }

  /** Start-up, whatever the nft sets held: the state is a good one up to what was left over, a MAC has exactly what is
      stored open if and only if nothing was left over for it, and the timer is armed if no remote call failed. */
  lemma StartUpSettles(n: Net, on: set<(Mac, Vlan)>, to: set<(Mac, Vlan)>, c: Check, macs: seq<Mac>)
    requires StoreOk(n) && LogOk(n) && Lists(macs, Swept(n, BlankFw(on, to), c).net)
    ensures var a := StartedUp(n, on, to, c, macs);
            && AgentOk(a.net, a.fw, StaleOf(a.net, on, to))
            && (forall m :: Matches(a.net, a.fw, m) <==> Clean(StaleOf(a.net, on, to), m))
            && ((forall m :: m in c.order ==> !Fails(c, m)) ==> Covered(a.net, a.timer))
  {
    hide LogOk, Initialised, Swept, Matches, Agrees, Clean, FwOk, FilledFw, StaleOf;
    SweepBlank(n, on, to, c);
    SweepOutcome(n, BlankFw(on, to), c);
    SweepCompletes(n, BlankFw(on, to), c);
    var n1 := Swept(n, BlankFw(on, to), c).net;
    var a := StartedUp(n, on, to, c, macs);
    ChangesDoNotMatter(n1, multiset{}, a.fw, on, to);
    InitialisedIsUnion(n1, on, to, macs);
    assert FilledFw(n1, a.fw, on, to);
    forall m
      ensures FwOk(a.fw, StaleOf(n1, on, to)) && Agrees(a.net, a.fw, StaleOf(n1, on, to), m)
      ensures Matches(a.net, a.fw, m) <==> Clean(StaleOf(n1, on, to), m)
    {
      FilledSettlesIff(n1, a.fw, on, to, m);
    }
    FilledSettlesIff(n1, a.fw, on, to, "");
  }
}
