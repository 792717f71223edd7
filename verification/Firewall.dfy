/** The firewall half of elan/nac/manager.py: a cache of open VLANs per MAC, kept beside the nft sets
    `mac_on_vlan` and `mac_to_vlan` that it describes. Both sets are handled by the same code, so one
    `Side` (cache plus elements) is modelled and the firewall holds two of them. */
module Firewall {
  import opened Common

  /** `cache` is the Python dictionary, `elements` the content of the nft set. */
  datatype Side = Side(cache: map<Mac, set<Vlan>>, elements: set<(Mac, Vlan)>)

  /** `on` is mac_on_vlan, `to` is mac_to_vlan. */
  datatype Fw = Fw(on: Side, to: Side)

  datatype Command = Add(mac: Mac, vlan: Vlan) | Delete(mac: Mac, vlan: Vlan)

  function Cached(cache: map<Mac, set<Vlan>>, mac: Mac): set<Vlan> {
    if mac in cache then cache[mac] else {}
  }

  ghost predicate Compact(cache: map<Mac, set<Vlan>>) {
    forall m :: m in cache ==> cache[m] != {}
  }

  /** No empty entry is kept, and what is cached is in the nft set. The set may hold more: it is not flushed when the
      manager starts. */
  ghost predicate CacheOk(s: Side) {
    Compact(s.cache) && forall m, v :: v in Cached(s.cache, m) ==> (m, v) in s.elements
  }

  /** Whatever is in the nft set and not cached was left over by an earlier manager. */
  ghost predicate SideOk(s: Side, stale: set<(Mac, Vlan)>) {
    CacheOk(s) && forall m, v :: (m, v) in s.elements ==> v in Cached(s.cache, m) || (m, v) in stale
  }

  /** The elements left over in the two nft sets. */
  datatype Stale = Stale(on: set<(Mac, Vlan)>, to: set<(Mac, Vlan)>)

  ghost predicate FwOk(fw: Fw, stale: Stale) {
    SideOk(fw.on, stale.on) && SideOk(fw.to, stale.to)
  }

  ghost predicate CleanAt(stale: set<(Mac, Vlan)>, mac: Mac) {
    forall v :: (mac, v) !in stale
  }

  /** The VLANs open for `mac` in an nft set are exactly `vlans`. */
  ghost predicate OpenExactly(elements: set<(Mac, Vlan)>, mac: Mac, vlans: set<Vlan>) {
    forall v :: (mac, v) in elements <==> v in vlans
  }

  /** All of `vlans` are open for `mac`, and nothing else is but what was left over. */
  ghost predicate OpenUpTo(elements: set<(Mac, Vlan)>, mac: Mac, vlans: set<Vlan>, stale: set<(Mac, Vlan)>) {
    forall v :: (v in vlans ==> (mac, v) in elements) && ((mac, v) in elements ==> v in vlans || (mac, v) in stale)
  }

  function SetCache(cache: map<Mac, set<Vlan>>, mac: Mac, vlans: set<Vlan>): map<Mac, set<Vlan>> {
    if vlans == {} then cache - {mac} else cache[mac := vlans]
  }

  function Pairs(mac: Mac, vlans: set<Vlan>): set<(Mac, Vlan)> {
    set v | v in vlans :: (mac, v)
  }

  /** What one half of `fw_allow_mac` leaves: it only ever issues differences against the cache. */
  function Reconciled(s: Side, mac: Mac, want: set<Vlan>): Side {
    var have := Cached(s.cache, mac);
    Side(SetCache(s.cache, mac, want), s.elements - Pairs(mac, have - want) + Pairs(mac, want - have))
  }

  function Allowed(fw: Fw, mac: Mac, on: set<Vlan>, to: set<Vlan>): Fw {
    Fw(Reconciled(fw.on, mac, on), Reconciled(fw.to, mac, to))
  }

  /** nft refuses to delete an absent element; adding a present one would be a wasted command. */
  function Execute(elements: set<(Mac, Vlan)>, commands: seq<Command>): Option<set<(Mac, Vlan)>> {
    if commands == [] then Some(elements)
    else
      match Execute(elements, commands[..|commands| - 1])
      case None => None
      case Some(e) =>
        match commands[|commands| - 1]
        case Add(m, v) => if (m, v) in e then None else Some(e + {(m, v)})
        case Delete(m, v) => if (m, v) in e then Some(e - {(m, v)}) else None
  }

  /** The cache stays in step, `mac` gets what is wanted and keeps at most what was left over, and every other MAC is
      untouched. */
  lemma ReconciledIsExact(s: Side, mac: Mac, want: set<Vlan>, stale: set<(Mac, Vlan)>)
    requires SideOk(s, stale)
    ensures SideOk(Reconciled(s, mac, want), stale)
    ensures OpenUpTo(Reconciled(s, mac, want).elements, mac, want, stale)
    ensures forall m, v :: m != mac ==> ((m, v) in Reconciled(s, mac, want).elements <==> (m, v) in s.elements)
  {
  }

  lemma AllowedIsExact(fw: Fw, mac: Mac, on: set<Vlan>, to: set<Vlan>, stale: Stale)
    requires FwOk(fw, stale)
    ensures FwOk(Allowed(fw, mac, on, to), stale)
    ensures OpenUpTo(Allowed(fw, mac, on, to).on.elements, mac, on, stale.on)
    ensures OpenUpTo(Allowed(fw, mac, on, to).to.elements, mac, to, stale.to)
    ensures forall m, v :: m != mac ==> ((m, v) in Allowed(fw, mac, on, to).on.elements <==> (m, v) in fw.on.elements)
    ensures forall m, v :: m != mac ==> ((m, v) in Allowed(fw, mac, on, to).to.elements <==> (m, v) in fw.to.elements)
  {
    ReconciledIsExact(fw.on, mac, on, stale.on);
    ReconciledIsExact(fw.to, mac, to, stale.to);
  }

  /** The result is exact for `mac` if and only if the set held nothing for it that was neither cached nor wanted: the
      code only ever deletes what it has cached. */
  lemma ReconciledIsExactIff(s: Side, mac: Mac, want: set<Vlan>)
    requires CacheOk(s)
    ensures OpenExactly(Reconciled(s, mac, want).elements, mac, want)
       <==> (forall v :: (mac, v) in s.elements ==> v in Cached(s.cache, mac) || v in want)
  {
    var r := Reconciled(s, mac, want);
    assert forall v :: (mac, v) in r.elements <==>
                       v in want || ((mac, v) in s.elements && v !in Cached(s.cache, mac));
  }

  /** One nft set together with its cache and the element commands sent to nft. */
  class VlanTable {
    var cache: map<Mac, set<Vlan>>
    var elements: set<(Mac, Vlan)>
    var commands: seq<Command>

    constructor (initial: set<(Mac, Vlan)>)
      ensures Value() == Side(map[], initial) && commands == []
    {
      cache, elements, commands := map[], initial, [];
    }

    function Value(): Side
      reads this
    {
      Side(cache, elements)
    }

    method CacheDelete(mac: Mac, vlan: Vlan)
      requires mac in cache && vlan in cache[mac]
      modifies this`cache
      ensures cache == SetCache(old(cache), mac, old(cache)[mac] - {vlan})
    {
      var vlans := cache[mac] - {vlan};
      cache := cache[mac := vlans];
      if vlans == {} {
        cache := cache - {mac};
      }
    }

    method CacheAdd(mac: Mac, vlan: Vlan)
      modifies this`cache
      ensures cache == SetCache(old(cache), mac, Cached(old(cache), mac) + {vlan})
    {
      if mac in cache && cache[mac] != {} {
        cache := cache[mac := cache[mac] + {vlan}];
      } else {
        assert Cached(cache, mac) + {vlan} == {vlan};
        cache := cache[mac := {vlan}];
      }
    }

    method Nft(command: Command)
      modifies this`elements, this`commands
      ensures commands == old(commands) + [command]
      ensures elements == match command
                          case Add(m, v) => old(elements) + {(m, v)}
                          case Delete(m, v) => old(elements) - {(m, v)}
    {
      commands := commands + [command];
      match command {
        case Add(m, v) => elements := elements + {(m, v)};
        case Delete(m, v) => elements := elements - {(m, v)};
      }
    }

    /** The body of the closing loops. */
    method Close(mac: Mac, vlan: Vlan)
      requires CacheOk(Value()) && vlan in Cached(cache, mac)
      modifies this
      ensures Value() == Reconciled(old(Value()), mac, Cached(old(cache), mac) - {vlan})
      ensures CacheOk(Value())
      ensures commands == old(commands) + [Delete(mac, vlan)]
      ensures (mac, vlan) in old(elements) && elements == old(elements) - {(mac, vlan)}
    {
      ghost var s0, have := Value(), Cached(cache, mac);
      CacheDelete(mac, vlan);
      Nft(Delete(mac, vlan));
      assert have - (have - {vlan}) == {vlan} && have - {vlan} - have == {};
      assert Pairs(mac, {vlan}) == {(mac, vlan)} && Pairs(mac, {}) == {};
      ReconciledIsExact(s0, mac, have - {vlan}, s0.elements);
    }

    /** The body of the opening loops. */
    method Open(mac: Mac, vlan: Vlan)
      requires CacheOk(Value()) && vlan !in Cached(cache, mac)
      modifies this
      ensures Value() == Reconciled(old(Value()), mac, Cached(old(cache), mac) + {vlan})
      ensures CacheOk(Value())
      ensures commands == old(commands) + [Add(mac, vlan)]
      ensures elements == old(elements) + {(mac, vlan)}
    {
      ghost var s0, have := Value(), Cached(cache, mac);
      CacheAdd(mac, vlan);
      Nft(Add(mac, vlan));
      assert have - (have + {vlan}) == {} && have + {vlan} - have == {vlan};
      assert Pairs(mac, {vlan}) == {(mac, vlan)} && Pairs(mac, {}) == {};
      ReconciledIsExact(s0, mac, have + {vlan}, s0.elements);
    }

    /** The closing loop of one half of `fw_allow_mac`. */
    method CloseUnwanted(mac: Mac, want: set<Vlan>) returns (ghost sent: seq<Command>)
      requires CacheOk(Value())
      modifies this
      ensures Value() == Reconciled(old(Value()), mac, Cached(old(cache), mac) * want)
      ensures CacheOk(Value()) && Cached(cache, mac) == Cached(old(cache), mac) * want
      ensures commands == old(commands) + sent && (forall c <- sent :: c.Delete?)
      ensures Execute(Pairs(mac, Cached(old(cache), mac)), sent) == Some(Pairs(mac, Cached(cache, mac)))
      ensures Execute(old(elements), sent) == Some(elements)
    {
      ghost var s0, have, sent0 := Value(), Cached(cache, mac), commands;
      sent := [];
      ReconciledSame(s0, mac);
      var todo := Cached(cache, mac) - want;
      while todo != {}
        invariant CacheOk(Value()) && Value() == Reconciled(s0, mac, Cached(cache, mac))
        invariant todo <= have - want && Cached(cache, mac) == have * want + todo
        invariant commands == sent0 + sent && (forall c <- sent :: c.Delete?)
        invariant Execute(Pairs(mac, have), sent) == Some(Pairs(mac, Cached(cache, mac)))
        invariant Execute(s0.elements, sent) == Some(elements)
        decreases todo
      {
        hide Reconciled, CacheOk, Pairs, Execute;
        var vlan :| vlan in todo;
        ReconciledTwice(s0, mac, Cached(cache, mac), Cached(cache, mac) - {vlan});
        PairsLess(mac, Cached(cache, mac), vlan);
        ReconciledCache(Value(), mac, Cached(cache, mac) - {vlan});
        Close(mac, vlan);
        Extend(Pairs(mac, have), sent, Delete(mac, vlan));
        Extend(s0.elements, sent, Delete(mac, vlan));
        sent := sent + [Delete(mac, vlan)];
        todo := todo - {vlan};
      }
      assert Cached(cache, mac) == have * want;
    }

    /** The opening loop of one half of `fw_allow_mac`. */
    method OpenMissing(mac: Mac, want: set<Vlan>) returns (ghost sent: seq<Command>)
      requires CacheOk(Value()) && Cached(cache, mac) <= want
      modifies this
      ensures Value() == Reconciled(old(Value()), mac, want)
      ensures commands == old(commands) + sent && (forall c <- sent :: c.Add?)
      ensures Execute(Pairs(mac, Cached(old(cache), mac)), sent) == Some(Pairs(mac, want))
      ensures Execute(old(elements), sent)
           == if Absent(old(elements), mac, want - Cached(old(cache), mac)) then Some(elements) else None
    {
      ghost var s0, have, sent0 := Value(), Cached(cache, mac), commands;
      sent := [];
      ReconciledSame(s0, mac);
      var todo := want - Cached(cache, mac);
      assert want - have - todo == {};
      while todo != {}
        invariant CacheOk(Value()) && Value() == Reconciled(s0, mac, Cached(cache, mac))
        invariant todo <= want - have && Cached(cache, mac) == want - todo
        invariant commands == sent0 + sent && (forall c <- sent :: c.Add?)
        invariant Execute(Pairs(mac, have), sent) == Some(Pairs(mac, Cached(cache, mac)))
        invariant elements == s0.elements + Pairs(mac, want - have - todo)
        invariant Execute(s0.elements, sent)
               == if Absent(s0.elements, mac, want - have - todo) then Some(elements) else None
        decreases todo
      {
        hide Reconciled, CacheOk, Execute, Pairs, Absent;
        var vlan :| vlan in todo;
        assert want - have - (todo - {vlan}) == want - have - todo + {vlan};
        assert want - todo + {vlan} == want - (todo - {vlan});
        ReconciledTwice(s0, mac, Cached(cache, mac), Cached(cache, mac) + {vlan});
        PairsMore(mac, Cached(cache, mac), vlan);
        PairsMore(mac, want - have - todo, vlan);
        AbsentMore(s0.elements, mac, want - have - todo, vlan);
        ReconciledCache(Value(), mac, Cached(cache, mac) + {vlan});
        Open(mac, vlan);
        Extend(Pairs(mac, have), sent, Add(mac, vlan));
        Extend(s0.elements, sent, Add(mac, vlan));
        sent := sent + [Add(mac, vlan)];
        todo := todo - {vlan};
      }
      assert Cached(cache, mac) == want && want - have - todo == want - have;
    }

    /** One half of `fw_allow_mac`: close what is cached and not wanted, then open what is missing. Against the cache, no
        absent element is deleted and no present one added, so there are as many commands as the symmetric difference;
        against the nft set the same holds exactly when nothing to be opened was left over there. */
    method Reconcile(mac: Mac, want: set<Vlan>) returns (ghost sent: seq<Command>)
      requires CacheOk(Value())
      modifies this
      ensures Value() == Reconciled(old(Value()), mac, want) && CacheOk(Value())
      ensures commands == old(commands) + sent
      ensures |sent| == |Cached(old(cache), mac) - want| + |want - Cached(old(cache), mac)|
      ensures Execute(Pairs(mac, Cached(old(cache), mac)), sent) == Some(Pairs(mac, want))
      ensures Execute(old(elements), sent)
           == if Absent(old(elements), mac, want - Cached(old(cache), mac)) then Some(elements) else None
    {
      hide Reconciled, CacheOk, Execute;
      ghost var s0, have := Value(), Cached(cache, mac);
      ReconciledTwice(s0, mac, have * want, want);
      ReconciledKeepsCacheOk(s0, mac, want);
      ghost var closed := CloseUnwanted(mac, want);
      ghost var e1 := elements;
      ghost var added := OpenMissing(mac, want);
      AbsentAfterClosing(s0, mac, want);
      CommandCount(mac, have, want, closed, added);
      ExecuteConcat(s0.elements, closed, added);
      sent := closed + added;
    }
  }

  /** None of `vlans` is open for `mac`. */
  ghost predicate Absent(elements: set<(Mac, Vlan)>, mac: Mac, vlans: set<Vlan>) {
    forall v :: v in vlans ==> (mac, v) !in elements
  }

  lemma AbsentAfterClosing(s: Side, mac: Mac, want: set<Vlan>)
    requires CacheOk(s)
    ensures var have := Cached(s.cache, mac);
            && want - have * want == want - have
            && (Absent(Reconciled(s, mac, have * want).elements, mac, want - have) <==> Absent(s.elements, mac, want - have))
  {
    var have := Cached(s.cache, mac);
    assert want - have * want == want - have && have * want - have == {};
  }

  lemma ReconciledKeepsCacheOk(s: Side, mac: Mac, want: set<Vlan>)
    requires CacheOk(s)
    ensures CacheOk(Reconciled(s, mac, want))
  {
    ReconciledIsExact(s, mac, want, s.elements);
  }

  lemma ReconciledCache(s: Side, mac: Mac, want: set<Vlan>)
    ensures Cached(Reconciled(s, mac, want).cache, mac) == want
  {
  }

  lemma PairsMore(mac: Mac, vlans: set<Vlan>, vlan: Vlan)
    requires vlan !in vlans
    ensures (mac, vlan) !in Pairs(mac, vlans) && Pairs(mac, vlans + {vlan}) == Pairs(mac, vlans) + {(mac, vlan)}
  {
  }

  lemma AbsentMore(elements: set<(Mac, Vlan)>, mac: Mac, vlans: set<Vlan>, vlan: Vlan)
    ensures Absent(elements, mac, vlans + {vlan}) <==> Absent(elements, mac, vlans) && (mac, vlan) !in elements
  {
  }

  lemma PairsLess(mac: Mac, vlans: set<Vlan>, vlan: Vlan)
    requires vlan in vlans
    ensures (mac, vlan) in Pairs(mac, vlans) && Pairs(mac, vlans - {vlan}) == Pairs(mac, vlans) - {(mac, vlan)}
  {
  }

  lemma {:induction false} ExecuteConcat(start: set<(Mac, Vlan)>, a: seq<Command>, b: seq<Command>)
    requires Execute(start, a).Some?
    ensures Execute(start, a + b) == Execute(Execute(start, a).value, b)
  {
    if b == [] {
      assert a + b == a;
    } else {
      var front := b[..|b| - 1];
      assert (a + b)[..|a + b| - 1] == a + front;
      ExecuteConcat(start, a, front);
    }
  }

  lemma {:induction false} PairsSize(mac: Mac, vlans: set<Vlan>)
    ensures |Pairs(mac, vlans)| == |vlans|
  {
    if vlans != {} {
      var v :| v in vlans;
      PairsSize(mac, vlans - {v});
      assert Pairs(mac, vlans) == Pairs(mac, vlans - {v}) + {(mac, v)};
    }
  }

  lemma {:induction false} DeletesCount(e: set<(Mac, Vlan)>, commands: seq<Command>, e': set<(Mac, Vlan)>)
    requires Execute(e, commands) == Some(e') && forall c <- commands :: c.Delete?
    ensures e' <= e && |e'| + |commands| == |e|
  {
    if commands != [] {
      assert commands[|commands| - 1] in commands;
      var front := commands[..|commands| - 1];
      DeletesCount(e, front, Execute(e, front).value);
    }
  }

  lemma {:induction false} AddsCount(e: set<(Mac, Vlan)>, commands: seq<Command>, e': set<(Mac, Vlan)>)
    requires Execute(e, commands) == Some(e') && forall c <- commands :: c.Add?
    ensures e <= e' && |e'| == |e| + |commands|
  {
    if commands != [] {
      assert commands[|commands| - 1] in commands;
      var front := commands[..|commands| - 1];
      AddsCount(e, front, Execute(e, front).value);
    }
  }

  lemma SplitSize(a: set<Vlan>, b: set<Vlan>)
    ensures |a| == |a * b| + |a - b|
  {
    assert a == a * b + (a - b);
  }

  /** Strict execution makes every command count: as many as the symmetric difference. */
  lemma CommandCount(mac: Mac, have: set<Vlan>, want: set<Vlan>, closed: seq<Command>, added: seq<Command>)
    requires forall c <- closed :: c.Delete?
    requires forall c <- added :: c.Add?
    requires Execute(Pairs(mac, have), closed) == Some(Pairs(mac, have * want))
    requires Execute(Pairs(mac, have * want), added) == Some(Pairs(mac, want))
    ensures |closed + added| == |have - want| + |want - have|
    ensures Execute(Pairs(mac, have), closed + added) == Some(Pairs(mac, want))
  {
    hide Execute;
    DeletesCount(Pairs(mac, have), closed, Pairs(mac, have * want));
    AddsCount(Pairs(mac, have * want), added, Pairs(mac, want));
    PairsSize(mac, have);
    PairsSize(mac, have * want);
    PairsSize(mac, want);
    hide Pairs;
    SplitSize(have, want);
    SplitSize(want, have);
    assert want * have == have * want;
    ExecuteConcat(Pairs(mac, have), closed, added);
  }

  lemma ReconciledSame(s: Side, mac: Mac)
    requires CacheOk(s)
    ensures Reconciled(s, mac, Cached(s.cache, mac)) == s
  {
    var have := Cached(s.cache, mac);
    assert have - have == {} && Pairs(mac, {}) == {};
  }

  /** Closing or opening in two goes is the same as in one. */
  lemma ReconciledTwice(s: Side, mac: Mac, first: set<Vlan>, second: set<Vlan>)
    requires CacheOk(s) && (first <= Cached(s.cache, mac) || Cached(s.cache, mac) <= first <= second)
    ensures Reconciled(Reconciled(s, mac, first), mac, second) == Reconciled(s, mac, second)
  {
    var half := Reconciled(s, mac, first);
    ReconciledCache(s, mac, first);
    assert Reconciled(half, mac, second).elements == Reconciled(s, mac, second).elements;
  }

  lemma Extend(start: set<(Mac, Vlan)>, sent: seq<Command>, command: Command)
    ensures Execute(start, sent + [command]) ==
            match Execute(start, sent)
            case None => None
            case Some(e) =>
              match command
              case Add(m, v) => if (m, v) in e then None else Some(e + {(m, v)})
              case Delete(m, v) => if (m, v) in e then Some(e - {(m, v)}) else None
  {
    assert (sent + [command])[..|sent|] == sent;
  }
}
