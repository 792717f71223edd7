/** elan/nac/__init__.py: the stored authorizations, their expiries, and what is published about them. */
module Authorization {
  import opened Common

  /** Everything `RedisMacAuthorization.__eq__` compares: all attributes except the MAC and the local id. */
  datatype Terms = Terms(
    assignVlan: Vlan,
    allowOn: set<Vlan>,
    bridgeTo: set<Vlan>,
    tillDisconnect: bool,
    till: Option<Time>,
    extra: map<string, string>)

  datatype Stored = Stored(id: nat, terms: Terms)

  /** A score of the expiry sorted set; `Never` is plus infinity. */
  datatype Expiry = At(time: Time) | Never

  /** Messages on the authorization session topic. */
  datatype Event =
    | Opened(mac: Mac, id: nat, terms: Terms)
    | Closed(mac: Mac, id: nat, reason: string)

  /** The hash, the sorted set and the id sequence in Redis, every session event published so far, and the
      change messages published and not yet delivered. */
  datatype Net = Net(
    sessions: map<Mac, Stored>,
    expiry: map<Mac, Expiry>,
    sequence: nat,
    log: seq<Event>,
    changes: multiset<Mac>)

  /** The answer of the remote `device-authorization` service: an assignment, none, or an exception. */
  datatype Answer = Assigned(terms: Terms) | Unassigned | CallFailed

  function ExpiryOf(terms: Terms): Expiry {
    match terms.till
    case None => Never
    case Some(t) => At(t)
  }

  /** `save` of a new authorization: a fresh id, both structures written, and the session announced. */
  function Saved(n: Net, mac: Mac, terms: Terms): Net {
    var id := n.sequence + 1;
    n.(sessions := n.sessions[mac := Stored(id, terms)],
       expiry := n.expiry[mac := ExpiryOf(terms)],
       sequence := id,
       log := n.log + [Opened(mac, id, terms)])
  }

  /** `deleteByMac` followed by the end notification. */
  function Removed(n: Net, mac: Mac, reason: string): Net
    requires mac in n.sessions
  {
    n.(sessions := n.sessions - {mac},
       expiry := n.expiry - {mac},
       log := n.log + [Closed(mac, n.sessions[mac].id, reason)])
  }

  function Announced(n: Net, mac: Mac): Net {
    n.(changes := n.changes + multiset{mac})
  }

  /** `checkAuthz` with the remote answer as an input. */
  function CheckAuthz(n: Net, mac: Mac, answer: Answer, reason: string): Net {
    match answer
    case CallFailed => n
    case Assigned(terms) =>
      if mac in n.sessions && n.sessions[mac].terms == terms then n
      else
        var cleared := if mac in n.sessions then Removed(n, mac, reason) else n;
        Announced(Saved(cleared, mac, terms), mac)
    case Unassigned =>
      if mac in n.sessions then Announced(Removed(n, mac, "expired"), mac) else n
  }

  /** The two Redis structures hold the same MACs, each with its own expiry. */
  ghost predicate StoreOk(n: Net) {
    && n.sessions.Keys == n.expiry.Keys
    && forall m :: m in n.sessions ==> n.expiry[m] == ExpiryOf(n.sessions[m].terms)
  }

  /** What a subscriber of the session topic knows: the open authorizations and every id ever used. */
  datatype Ledger = Ledger(open: map<Mac, Stored>, used: set<nat>)

  /** Refuses an opening of an open MAC, a reused id, and a close that does not carry the open id. */
  function Track(log: seq<Event>): Option<Ledger> {
    if log == [] then Some(Ledger(map[], {}))
    else
      match Track(log[..|log| - 1])
      case None => None
      case Some(k) =>
        match log[|log| - 1]
        case Opened(m, id, terms) =>
          if m in k.open || id in k.used then None else Some(Ledger(k.open[m := Stored(id, terms)], k.used + {id}))
        case Closed(m, id, _) =>
          if m in k.open && k.open[m].id == id then Some(Ledger(k.open - {m}, k.used)) else None
  }

  /** The published log is accepted, and says that exactly the stored authorizations are open, with their terms. */
  ghost predicate LogOk(n: Net) {
    && Track(n.log).Some?
    && Track(n.log).value.open == n.sessions
    && forall i :: i in Track(n.log).value.used ==> i <= n.sequence
  }

  lemma SavedOk(n: Net, mac: Mac, terms: Terms)
    requires StoreOk(n) && LogOk(n) && mac !in n.sessions
    ensures StoreOk(Saved(n, mac, terms)) && LogOk(Saved(n, mac, terms))
  {
    var n' := Saved(n, mac, terms);
    assert n'.log[..|n'.log| - 1] == n.log;
  }

  lemma RemovedOk(n: Net, mac: Mac, reason: string)
    requires StoreOk(n) && LogOk(n) && mac in n.sessions
    ensures StoreOk(Removed(n, mac, reason)) && LogOk(Removed(n, mac, reason))
  {
    var n' := Removed(n, mac, reason);
    assert n'.log[..|n'.log| - 1] == n.log;
  }

  /** Re-evaluating one MAC keeps the store consistent and the published log acceptable. */
  lemma CheckAuthzOk(n: Net, mac: Mac, answer: Answer, reason: string)
    requires StoreOk(n) && LogOk(n)
    ensures StoreOk(CheckAuthz(n, mac, answer, reason)) && LogOk(CheckAuthz(n, mac, answer, reason))
  {
    if mac in n.sessions {
      RemovedOk(n, mac, reason);
      RemovedOk(n, mac, "expired");
    }
    match answer {
      case Assigned(terms) =>
        SavedOk(if mac in n.sessions then Removed(n, mac, reason) else n, mac, terms);
      case _ =>
    }
  }

  /** The entries of every MAC but `mac` are the same in both stores. */
  ghost predicate SameElsewhere(n: Net, n': Net, mac: Mac) {
    && (forall m :: m != mac ==> (m in n'.sessions <==> m in n.sessions))
    && (forall m :: m != mac && m in n.sessions ==> n'.sessions[m] == n.sessions[m])
    && (forall m :: m != mac ==> (m in n'.expiry <==> m in n.expiry))
    && (forall m :: m != mac && m in n.expiry ==> n'.expiry[m] == n.expiry[m])
  }

  /** Re-evaluating one MAC touches no other, and leaves a change message whenever it changes anything. */
  lemma CheckAuthzLocal(n: Net, mac: Mac, answer: Answer, reason: string)
    ensures var n' := CheckAuthz(n, mac, answer, reason);
            && SameElsewhere(n, n', mac) && n.changes <= n'.changes
            && (n' == n || mac in n'.changes)
  {
  }

  /** The store already says what the answer says. */
  ghost predicate Reflects(n: Net, mac: Mac, answer: Answer) {
    match answer
    case CallFailed => true
    case Assigned(terms) => mac in n.sessions && n.sessions[mac].terms == terms
    case Unassigned => mac !in n.sessions
  }

  /** Afterwards the store says what the answer says. Nothing is touched or published exactly when it did so
      already; otherwise a new authorization gets an id no other ever had, and the end of the old one is published
      with the given reason when it is replaced and as expired when it is withdrawn. */
  lemma CheckAuthzOutcome(n: Net, mac: Mac, answer: Answer, reason: string)
    requires StoreOk(n) && LogOk(n)
    ensures var n' := CheckAuthz(n, mac, answer, reason);
            && Reflects(n', mac, answer)
            && (n' == n <==> Reflects(n, mac, answer))
            && (!Reflects(n, mac, answer) && answer.Assigned? ==>
                  n'.sessions[mac].id !in Track(n.log).value.used && n'.log != [] && n'.log[|n'.log| - 1].Opened?)
            && (forall e :: e in n'.log[|n.log|..] && e.Closed? ==>
                  e.mac == mac && e.reason == if answer.Unassigned? then "expired" else reason)
  {
    hide Track;
  }

  /** Asking again changes nothing more. */
  lemma CheckAuthzIsIdempotent(n: Net, mac: Mac, answer: Answer, reason: string, again: string)
    requires StoreOk(n) && LogOk(n)
    ensures var n' := CheckAuthz(n, mac, answer, reason); CheckAuthz(n', mac, answer, again) == n'
  {
    CheckAuthzOk(n, mac, answer, reason);
    CheckAuthzOutcome(n, mac, answer, reason);
    CheckAuthzOutcome(CheckAuthz(n, mac, answer, reason), mac, answer, again);
  }

  // What one MAC is left with, and what is published about it, written out.

  /** Nothing about `mac` changed, and nothing was published about it. */
  ghost predicate Same(n: Net, n': Net, mac: Mac) {
    && (mac in n'.sessions <==> mac in n.sessions) && (mac in n.sessions ==> n'.sessions[mac] == n.sessions[mac])
    && (mac in n'.expiry <==> mac in n.expiry) && (mac in n.expiry ==> n'.expiry[mac] == n.expiry[mac])
    && n'.changes[mac] == n.changes[mac] && EventsOf(n'.log, mac) == EventsOf(n.log, mac)
  }

  /** The end of what is stored for `mac`. */
  function Ending(n: Net, mac: Mac, reason: string): seq<Event> {
    if mac in n.sessions then [Closed(mac, n.sessions[mac].id, reason)] else []
  }

  /** `mac` was re-evaluated with this answer: nothing happened if the store said the same already. Otherwise one change
      message was published, the old authorization ended, overridden or expired, and the new one, if any, opened. */
  ghost predicate Evaluated(n: Net, n': Net, mac: Mac, answer: Answer, reason: string) {
    match answer
    case CallFailed => Same(n, n', mac)
    case Unassigned =>
      && mac !in n'.sessions
      && (if mac !in n.sessions then Same(n, n', mac)
          else (n'.changes[mac] == n.changes[mac] + 1
                && EventsOf(n'.log, mac) == EventsOf(n.log, mac) + Ending(n, mac, "expired")))
    case Assigned(terms) =>
      && mac in n'.sessions && n'.sessions[mac].terms == terms
      && (if mac in n.sessions && n.sessions[mac].terms == terms then Same(n, n', mac)
          else (n'.changes[mac] == n.changes[mac] + 1
                && EventsOf(n'.log, mac)
                   == EventsOf(n.log, mac) + Ending(n, mac, reason) + [Opened(mac, n'.sessions[mac].id, terms)]))
  }

  lemma EventsOne(log: seq<Event>, event: Event, mac: Mac)
    ensures EventsOf(log + [event], mac) == EventsOf(log, mac) + if event.mac == mac then [event] else []
  {
    assert (log + [event])[..|log|] == log;
  }

  lemma RemovedSays(n: Net, mac: Mac, reason: string, m: Mac)
    requires mac in n.sessions
    ensures EventsOf(Removed(n, mac, reason).log, m) == EventsOf(n.log, m) + if m == mac then Ending(n, mac, reason) else []
  {
    EventsOne(n.log, Closed(mac, n.sessions[mac].id, reason), m);
  }

  lemma SavedSays(n: Net, mac: Mac, terms: Terms, m: Mac)
    ensures var n' := Saved(n, mac, terms);
            EventsOf(n'.log, m) == EventsOf(n.log, m) + if m == mac then [Opened(mac, n'.sessions[mac].id, terms)] else []
  {
    EventsOne(n.log, Opened(mac, n.sequence + 1, terms), m);
  }

  /** `checkAuthz` re-evaluates its MAC and leaves all others alone. */
  lemma CheckAuthzEvaluates(n: Net, mac: Mac, answer: Answer, reason: string, m: Mac)
    requires StoreOk(n)
    ensures var n' := CheckAuthz(n, mac, answer, reason);
            if m == mac then Evaluated(n, n', mac, answer, reason) else Same(n, n', m)
  {
    hide EventsOf;
    if mac in n.sessions {
      RemovedSays(n, mac, reason, m);
      RemovedSays(n, mac, "expired", m);
    }
    if answer.Assigned? {
      SavedSays(if mac in n.sessions then Removed(n, mac, reason) else n, mac, answer.terms, m);
    }
  }

  // Alternation, as a reader of the topic would state it for one MAC.

  function EventsOf(log: seq<Event>, mac: Mac): seq<Event> {
    if log == [] then []
    else
      var front := EventsOf(log[..|log| - 1], mac);
      if log[|log| - 1].mac == mac then front + [log[|log| - 1]] else front
  }

  /** New, end, new, end, ..., each end carrying the id of the opening just before it. */
  ghost predicate Alternates(events: seq<Event>) {
    && (forall i :: 0 <= i < |events| ==> (events[i].Opened? <==> i % 2 == 0))
    && (forall i :: 0 < i < |events| && i % 2 == 1 ==> events[i].id == events[i - 1].id)
  }

  /** An accepted log alternates for every MAC, and the MAC is open exactly when its last event opened it, with the id and
      the terms of that event. */
  lemma {:induction false} AcceptedAlternates(log: seq<Event>, mac: Mac)
    requires Track(log).Some?
    ensures Alternates(EventsOf(log, mac))
    ensures var e := EventsOf(log, mac); var open := Track(log).value.open;
            if mac in open then |e| % 2 == 1 && e[|e| - 1] == Opened(mac, open[mac].id, open[mac].terms) else |e| % 2 == 0
  {
    if log != [] {
      AcceptedAlternates(log[..|log| - 1], mac);
    }
  }

  /** No id is ever used for two openings, of the same or of different MACs. */
  lemma {:induction false} AcceptedIdsAreFresh(log: seq<Event>, i: nat, j: nat)
    requires Track(log).Some? && i < j < |log| && log[i].Opened? && log[j].Opened?
    ensures log[i].id != log[j].id
  {
    var front := log[..|log| - 1];
    if j < |front| {
      AcceptedIdsAreFresh(front, i, j);
    } else {
      OpeningsAreUsed(front, i);
    }
  }

  lemma {:induction false} OpeningsAreUsed(log: seq<Event>, i: nat)
    requires Track(log).Some? && i < |log| && log[i].Opened?
    ensures log[i].id in Track(log).value.used
  {
    if i < |log| - 1 {
      OpeningsAreUsed(log[..|log| - 1], i);
    }
  }
}
