/** What an expiry check and a list of re-evaluations leave of each MAC, and what is published about it, written out from
    the remote answers. */
module Reevaluation {
  import opened Common
  import opened Authorization
  import opened Firewall
  import opened Enforcement

  /** The remote side assigns something to an online MAC. */
  predicate Granted(c: Check, mac: Mac) {
    mac in c.online && c.answers(mac).Assigned?
  }

  /** An expired MAC after the check: what it had has ended as expired. If it is online and the remote side assigns something
      to it, that is stored, opened and announced by one change message; otherwise nothing is left. */
  ghost predicate SweptAs(n: Net, n': Net, mac: Mac, c: Check) {
    if Granted(c, mac) then
      && mac in n'.sessions && n'.sessions[mac].terms == c.answers(mac).terms
      && n'.changes[mac] == n.changes[mac] + 1
      && EventsOf(n'.log, mac) == EventsOf(n.log, mac) + Ending(n, mac, "expired")
                                  + [Opened(mac, n'.sessions[mac].id, c.answers(mac).terms)]
    else
      && mac !in n'.sessions && n'.changes[mac] == n.changes[mac]
      && EventsOf(n'.log, mac) == EventsOf(n.log, mac) + Ending(n, mac, "expired")
  }

  lemma DroppedSays(n: Net, mac: Mac, reason: string, m: Mac)
    requires StoreOk(n)
    ensures var n' := Dropped(n, mac, reason);
            && StoreOk(n') && mac !in n'.sessions && n'.changes == n.changes && (m != mac ==> Same(n, n', m))
            && EventsOf(n'.log, m) == EventsOf(n.log, m) + if m == mac then Ending(n, mac, reason) else []
  {
    if mac in n.sessions {
      RemovedSays(n, mac, reason, m);
    }
  }

  lemma ExpiredAs(n: Net, mac: Mac, c: Check, m: Mac)
    requires StoreOk(n)
    ensures StoreOk(Expired(n, mac, c))
    ensures if m == mac then SweptAs(n, Expired(n, mac, c), m, c) else Same(n, Expired(n, mac, c), m)
  {
    var n1 := Dropped(n, mac, "expired");
    DroppedSays(n, mac, "expired", m);
    hide EventsOf, Dropped;
    if mac in c.online {
      CheckAuthzEvaluates(n1, mac, c.answers(mac), "overridden", m);
      CheckAuthzStore(n1, mac, c.answers(mac), "overridden");
      hide CheckAuthz;
    }
  }

  lemma CheckAuthzStore(n: Net, mac: Mac, answer: Answer, reason: string)
    requires StoreOk(n)
    ensures StoreOk(CheckAuthz(n, mac, answer, reason))
  {
  }

  lemma {:induction false} VisitedInOrder(c: Check, m: Mac)
    requires m in Visited(c)
    ensures m in c.order
    decreases |c.order|
  {
    if m != c.order[0] {
      VisitedInOrder(c.(order := c.order[1..]), m);
    }
  }

  lemma SweptThen(n: Net, n1: Net, n2: Net, m: Mac, c: Check)
    ensures SweptAs(n, n1, m, c) && Same(n1, n2, m) ==> SweptAs(n, n2, m, c)
    ensures Same(n, n1, m) && SweptAs(n1, n2, m, c) ==> SweptAs(n, n2, m, c)
    ensures Same(n, n1, m) && Same(n1, n2, m) ==> Same(n, n2, m)
  {
    hide EventsOf;
  }

  /** The loop of `check_expired_authz`, for every MAC: those it got to are swept, all others are left alone. */
  lemma {:induction false} SweepAnswers(n: Net, fw: Fw, c: Check, m: Mac)
    requires StoreOk(n) && Distinct(c.order)
    ensures var n' := Swept(n, fw, c).net; if m in Visited(c) then SweptAs(n, n', m, c) else Same(n, n', m)
    decreases |c.order|
  {
    if c.order != [] {
      var mac, c1 := c.order[0], c.(order := c.order[1..]);
      var n1, n2 := Expired(n, mac, c), Swept(n, fw, c).net;
      ExpiredAs(n, mac, c, m);
      if !Fails(c, mac) {
        SweepAnswers(n1, Allowed(fw, mac, {}, {}), c1, m);
        if m in Visited(c1) {
          VisitedInOrder(c1, m);
          assert SweptAs(n1, n2, m, c1) == SweptAs(n1, n2, m, c);
        }
        hide SweptAs, Same;
        SweptThen(n, n1, n2, m, c);
      }
    }
  }

  /** The same for a whole expiry check at the time `now` during which no remote call failed: exactly the MACs whose expiry
      has come are swept. */
  lemma CheckAnswers(a: Agent, c: Check, now: Time, m: Mac)
    requires StoreOk(a.net) && ListsExpired(c, a.net, now) && Swept(a.net, a.fw, c).ok
    ensures var n' := CheckedExpiry(a, c).net;
            if m in a.net.expiry && a.net.expiry[m].At? && a.net.expiry[m].time <= now then SweptAs(a.net, n', m, c)
            else Same(a.net, n', m)
  {
    SweepAnswers(a.net, a.fw, c, m);
    if m in Visited(c) {
      VisitedInOrder(c, m);
    } else if m in c.order {
      EveryoneVisited(a.net, a.fw, c, m);
    }
  }

  lemma {:induction false} EveryoneVisited(n: Net, fw: Fw, c: Check, m: Mac)
    requires Swept(n, fw, c).ok && m in c.order
    ensures m in Visited(c)
    decreases |c.order|
  {
    if m != c.order[0] {
      assert m in c.order[1..];
      EveryoneVisited(Expired(n, c.order[0], c), Allowed(fw, c.order[0], {}, {}), c.(order := c.order[1..]), m);
    }
  }

  // check_authz on a list.

  lemma EvaluatedThen(n: Net, n1: Net, n2: Net, m: Mac, answer: Answer, reason: string)
    ensures Evaluated(n, n1, m, answer, reason) && Same(n1, n2, m) ==> Evaluated(n, n2, m, answer, reason)
    ensures Same(n, n1, m) && Evaluated(n1, n2, m, answer, reason) ==> Evaluated(n, n2, m, answer, reason)
    ensures Evaluated(n, n1, m, answer, reason) && Evaluated(n1, n2, m, answer, reason) ==> Evaluated(n, n2, m, answer, reason)
    ensures Same(n, n1, m) && Same(n1, n2, m) ==> Same(n, n2, m)
  {
    hide EventsOf;
  }

  /** Every online MAC of the list that is reached before a remote call fails is re-evaluated, in effect once even if it is
      listed twice; every other MAC is left alone. */
  lemma {:induction false} RecheckAnswers(n: Net, c: Check, m: Mac)
    requires StoreOk(n)
    ensures var n' := Rechecked(n, c);
            if m in Visited(c) && m in c.online then Evaluated(n, n', m, c.answers(m), "overridden") else Same(n, n', m)
    decreases |c.order|
  {
    if c.order != [] && !Fails(c, c.order[0]) {
      var mac, c1 := c.order[0], c.(order := c.order[1..]);
      var n1 := if mac in c.online then CheckAuthz(n, mac, c.answers(mac), "overridden") else n;
      if mac in c.online {
        CheckAuthzEvaluates(n, mac, c.answers(mac), "overridden", m);
        CheckAuthzStore(n, mac, c.answers(mac), "overridden");
      }
      RecheckAnswers(n1, c1, m);
      hide Evaluated, Same, CheckAuthz;
      EvaluatedThen(n, n1, Rechecked(n1, c1), m, c.answers(m), "overridden");
      EvaluatedThen(n, n, Rechecked(n1, c1), m, c.answers(m), "overridden");
    }
  }
}
