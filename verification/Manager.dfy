/** `MacAuthorizationManager` of elan/nac/manager.py, and the operations of elan/nac/__init__.py it shares Redis with,
    as code on mutable state. */
module Manager {
  import opened Common
  import opened Authorization
  import opened Firewall
  import opened Enforcement
  import opened Coverage
  import opened NacProtocol
  import opened Reevaluation

  /** Redis and the message bus, shared by every process. */
  class Backend {
    var net: Net

    constructor (net: Net)
      ensures this.net == net
    {
      this.net := net;
    }

    method Delete(mac: Mac, reason: string)
      requires mac in net.sessions
      modifies this
      ensures net == Removed(old(net), mac, reason)
    {
      var id := net.sessions[mac].id;
      net := net.(expiry := net.expiry - {mac}, sessions := net.sessions - {mac});
      net := net.(log := net.log + [Closed(mac, id, reason)]);
    }

    /** `save`: the id is drawn from the sequence. */
    method Save(mac: Mac, terms: Terms) returns (id: nat)
      modifies this
      ensures id == old(net).sequence + 1
      ensures net == old(net).(sequence := id, expiry := old(net).expiry[mac := ExpiryOf(terms)],
                               sessions := old(net).sessions[mac := Stored(id, terms)])
    {
      id := net.sequence + 1;
      net := net.(sequence := id);
      var till := match terms.till case None => Never case Some(t) => At(t);
      net := net.(expiry := net.expiry[mac := till], sessions := net.sessions[mac := Stored(id, terms)]);
    }

    /** `checkAuthz`. The result is the authorization in force, if any. */
    method Check(mac: Mac, answer: Answer, reason: string) returns (granted: Option<Terms>)
      modifies this
      ensures net == CheckAuthz(old(net), mac, answer, reason)
      ensures !answer.CallFailed? ==> (granted.Some? <==> mac in net.sessions)
      ensures granted.Some? ==> mac in net.sessions && net.sessions[mac].terms == granted.value
    {
      granted := None;
      match answer {
        case CallFailed =>
        case Assigned(terms) =>
          if !(mac in net.sessions && net.sessions[mac].terms == terms) {
            if mac in net.sessions {
              Delete(mac, reason);
            }
            var id := Save(mac, terms);
            net := net.(changes := net.changes + multiset{mac});
            net := net.(log := net.log + [Opened(mac, id, terms)]);
          }
          granted := Some(terms);
        case Unassigned =>
          if mac in net.sessions {
            Delete(mac, "expired");
            net := net.(changes := net.changes + multiset{mac});
          }
      }
    }
  }

  class MacAuthorizationManager {
    const backend: Backend
    const on: VlanTable
    const to: VlanTable
    var timer: Option<Time>

    /** The attributes set at the beginning of `__init__`, whatever the nft sets hold. */
    constructor (backend: Backend, initialOn: set<(Mac, Vlan)>, initialTo: set<(Mac, Vlan)>)
      ensures this.backend == backend && fresh(on) && fresh(to) && Valid()
      ensures Value() == Agent(backend.net, BlankFw(initialOn, initialTo), None)
    {
      this.backend := backend;
      on := new VlanTable(initialOn);
      to := new VlanTable(initialTo);
      timer := None;
    }

    function Enforced(): Fw
      reads on, to
    {
      Fw(on.Value(), to.Value())
    }

    function Value(): Agent
      reads this, backend, on, to
    {
      Agent(backend.net, Enforced(), timer)
    }

    ghost predicate Valid()
      reads on, to
    {
      on != to && CacheOk(on.Value()) && CacheOk(to.Value())
    }

    /** `fw_allow_mac`. */
    method FwAllowMac(mac: Mac, allowOn: set<Vlan>, bridgeTo: set<Vlan>)
      requires Valid()
      modifies on, to
      ensures Valid() && Enforced() == Allowed(old(Enforced()), mac, allowOn, bridgeTo)
    {
      ghost var sent := on.Reconcile(mac, allowOn);
      sent := to.Reconcile(mac, bridgeTo);
    }

    /** `authzChanged`: it is Redis that decides. */
    method AuthzChanged(mac: Mac)
      requires Valid()
      modifies on, to
      ensures Valid() && Enforced() == Refreshed(backend.net, old(Enforced()), mac)
    {
      if mac in backend.net.sessions {
        var terms := backend.net.sessions[mac].terms;
        FwAllowMac(mac, terms.allowOn, terms.bridgeTo);
      } else {
        FwAllowMac(mac, {}, {});
      }
    }

    /** `removeAuthz`. */
    method RemoveAuthz(mac: Mac, reason: string)
      requires Valid()
      modifies backend, on, to
      ensures Valid() && Enforced() == Allowed(old(Enforced()), mac, {}, {})
      ensures backend.net == Dropped(old(backend.net), mac, reason)
    {
      if mac in backend.net.sessions {
        backend.Delete(mac, reason);
      }
      FwAllowMac(mac, {}, {});
    }

    /** The members of the expiry set with a score up to `now`. */
    method ExpiredMacs(now: Time) returns (order: seq<Mac>)
      ensures forall c: Check :: c.order == order ==> ListsExpired(c, backend.net, now)
    {
      order := [];
      var expiry := backend.net.expiry;
      var todo := set m | m in expiry && expiry[m].At? && expiry[m].time <= now;
      ghost var all := todo;
      while todo != {}
        invariant todo <= all
        invariant Distinct(order)
        invariant forall m :: m in order <==> m in all && m !in todo
        decreases todo
      {
        var m :| m in todo;
        assert m !in order;
        order := order + [m];
        todo := todo - {m};
      }
    }

    /** The loop of `check_expired_authz`; false when a remote call raised. */
    method Sweep(check: Check) returns (ok: bool)
      requires Valid()
      modifies backend, on, to
      ensures Valid()
      ensures Enforcement.Sweep(backend.net, Enforced(), ok) == Swept(old(backend.net), old(Enforced()), check)
    {
      ghost var whole := Swept(backend.net, Enforced(), check);
      var order := check.order;
      while order != []
        invariant Valid()
        invariant Swept(backend.net, Enforced(), check.(order := order)) == whole
        decreases |order|
      {
        var mac := order[0];
        RemoveAuthz(mac, "expired");
        if mac in check.online {
          var answer := check.answers(mac);
          var granted := backend.Check(mac, answer, "overridden");
          if answer.CallFailed? {
            return false;
          }
        }
        order := order[1..];
      }
      ok := true;
    }

    /** `check_authz` on a list of MACs; false when a remote call raised. */
    method CheckAuthz(check: Check) returns (ok: bool)
      modifies backend
      ensures backend.net == Rechecked(old(backend.net), check)
      ensures ok <==> Completes(check)
      ensures StoreOk(old(backend.net)) ==>
                forall m :: if m in Visited(check) && m in check.online
                            then Evaluated(old(backend.net), backend.net, m, check.answers(m), "overridden")
                            else Same(old(backend.net), backend.net, m)
    {
      ghost var n := backend.net;
      if StoreOk(n) {
        forall m
          ensures if m in Visited(check) && m in check.online
                  then Evaluated(n, Rechecked(n, check), m, check.answers(m), "overridden") else Same(n, Rechecked(n, check), m)
        {
          RecheckAnswers(n, check, m);
        }
      }
      for i := 0 to |check.order|
        invariant forall j :: 0 <= j < i ==> !Fails(check, check.order[j])
        invariant Rechecked(backend.net, check.(order := check.order[i..])) == Rechecked(n, check)
      {
        var mac := check.order[i];
        var rest := check.(order := check.order[i..]);
        assert rest.order[0] == mac && rest.order[1..] == check.order[i + 1..];
        assert Fails(rest, mac) == Fails(check, mac) && mac in check.order;
        if mac in check.online {
          if check.answers(mac).CallFailed? {
            return false;
          }
          var granted := backend.Check(mac, check.answers(mac), "overridden");
        }
      }
      ok := true;
    }

    /** `schedule_next_expiry_check`: the old timer has been cancelled. */
    method Schedule()
      modifies this
      ensures timer == Earliest(backend.net.expiry)
    {
      timer := None;
      var expiry := backend.net.expiry;
      var todo := expiry.Keys;
      while todo != {}
        invariant todo <= expiry.Keys
        invariant timer.None? ==> forall m :: m in expiry && m !in todo ==> expiry[m].Never?
        invariant timer.Some? ==>
            && (exists m :: m in expiry && expiry[m] == At(timer.value))
            && forall m :: m in expiry && m !in todo && expiry[m].At? ==> timer.value <= expiry[m].time
        decreases todo
      {
        var m :| m in todo;
        if expiry[m].At? && (timer.None? || expiry[m].time < timer.value) {
          timer := Some(expiry[m].time);
        }
        todo := todo - {m};
      }
    }

    /** `check_expired_authz`; false when it was left by an exception. */
    method CheckExpiredAuthz(now: Time, online: set<Mac>, answers: Mac -> Answer) returns (ok: bool, ghost check: Check)
      requires Valid()
      modifies this, backend, on, to
      ensures Valid() && check.online == online && check.answers == answers
      ensures ListsExpired(check, old(backend.net), now)
      ensures Value() == CheckedExpiry(old(Value()), check) && ok == Swept(old(backend.net), old(Enforced()), check).ok
      ensures ok && StoreOk(old(backend.net)) ==>
                forall m :: if m in old(backend.net).expiry && old(backend.net).expiry[m].At?
                               && old(backend.net).expiry[m].time <= now
                            then SweptAs(old(backend.net), backend.net, m, check)
                            else Same(old(backend.net), backend.net, m)
    {
      ghost var a := Value();
      timer := None;
      var order := ExpiredMacs(now);
      var c := Check(order, online, answers);
      check := c;
      ok := Sweep(c);
      if ok {
        Schedule();
        if StoreOk(a.net) {
          forall m
            ensures if m in a.net.expiry && a.net.expiry[m].At? && a.net.expiry[m].time <= now
                    then SweptAs(a.net, backend.net, m, c) else Same(a.net, backend.net, m)
          {
            CheckAnswers(a, c, now, m);
          }
        }
      }
    }

    /** `handle_authz_changed`. */
    method HandleAuthzChanged(mac: Mac, now: Time, online: set<Mac>, answers: Mac -> Answer)
      returns (ok: bool, ghost check: Check)
      requires Valid()
      modifies this, backend, on, to
      ensures Valid() && ListsExpired(check, old(backend.net), now) && check.online == online && check.answers == answers
      ensures Value() == ChangeHandled(old(Value()), mac, check)
    {
      AuthzChanged(mac);
      ok, check := CheckExpiredAuthz(now, online, answers);
    }

    /** `handle_disconnection`. */
    method HandleDisconnection(mac: Mac, now: Time, online: set<Mac>, answers: Mac -> Answer)
      returns (ok: bool, ghost check: Check)
      requires Valid()
      modifies this, backend, on, to
      ensures Valid() && ListsExpired(check, Disconnected(old(Value()), mac).net, now)
      ensures check.online == online && check.answers == answers
      ensures Value() == DisconnectionHandled(old(Value()), mac, check)
    {
      if mac in backend.net.sessions && backend.net.sessions[mac].terms.tillDisconnect {
        RemoveAuthz(mac, "disconnected");
        AuthzChanged(mac);
      }
      ok, check := CheckExpiredAuthz(now, online, answers);
    }

    /** `init_macs`. */
    method InitMacs() returns (ghost macs: seq<Mac>)
      requires Valid()
      modifies on, to
      ensures Valid() && Enforced() == Initialised(backend.net, old(Enforced()), macs)
      ensures forall m :: m in macs <==> m in backend.net.expiry
    {
      var order := Members(backend.net.expiry);
      macs := order;
      ghost var whole := Initialised(backend.net, Enforced(), order);
      while order != []
        invariant Valid() && Initialised(backend.net, Enforced(), order) == whole
        decreases |order|
      {
        if order[0] in backend.net.sessions {
          AuthzChanged(order[0]);
        }
        order := order[1..];
      }
    }
  }

  /** `__init__` followed by the subscriptions, which is when messages begin to arrive; false when the first check raised,
      and then there is no manager. The nft sets may hold anything; a MAC has exactly its stored VLANs open if and only
      if they held nothing else for it. */
  method StartUp(backend: Backend, initialOn: set<(Mac, Vlan)>, initialTo: set<(Mac, Vlan)>, now: Time, online: set<Mac>,
                 answers: Mac -> Answer)
    returns (manager: MacAuthorizationManager, ok: bool, ghost check: Check, ghost macs: seq<Mac>)
    modifies backend
    ensures manager.backend == backend && manager.Valid()
    ensures ListsExpired(check, old(backend.net), now) && check.online == online && check.answers == answers
    ensures ok <==> Completes(check)
    ensures ok ==> manager.Value() == StartedUp(old(backend.net), initialOn, initialTo, check, macs)
    ensures ok && StoreOk(old(backend.net)) && LogOk(old(backend.net)) ==>
              var stale := StaleOf(backend.net, initialOn, initialTo);
              && AgentOk(backend.net, manager.Enforced(), stale) && Covered(backend.net, manager.timer)
              && forall m :: Matches(backend.net, manager.Enforced(), m) <==> Clean(stale, m)
  {
    ghost var n := backend.net;
    manager := new MacAuthorizationManager(backend, initialOn, initialTo);
    macs := [];
    ok, check := manager.CheckExpiredAuthz(now, online, answers);
    SweepCompletes(n, BlankFw(initialOn, initialTo), check);
    if ok {
      macs := manager.InitMacs();
      backend.net := backend.net.(changes := multiset{});
      if StoreOk(n) && LogOk(n) {
        SweepOutcome(n, BlankFw(initialOn, initialTo), check);
        hide LogOk, AgentOk, Covered, Matches, Clean, Swept, Initialised, StaleOf;
        StartUpSettles(n, initialOn, initialTo, check, macs);
      }
    }
  }

  method Members(expiry: map<Mac, Expiry>) returns (macs: seq<Mac>)
    ensures forall m :: m in macs <==> m in expiry
  {
    macs := [];
    var todo := expiry.Keys;
    while todo != {}
      invariant todo <= expiry.Keys && forall m :: m in macs <==> m in expiry && m !in todo
      decreases todo
    {
      var m :| m in todo;
      macs := macs + [m];
      todo := todo - {m};
    }
  }
}
