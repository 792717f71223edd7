/** `notify_current_sessions` of elan/session.py: resending the whole table from the session-id hash. */
module CurrentSessions {
  import opened Common
  import opened Sessions
  import opened SessionFields
  import opened ControlCenter
  import R = SessionRuns

  /** Every session has its parent: the part of the forest invariant that matters here. */
  ghost predicate Rooted(ids: map<Key, nat>) {
    && (forall m, v :: VlanKey(m, v) in ids ==> MacKey(m) in ids)
    && (forall m, v, i :: IpKey(m, v, i) in ids ==> VlanKey(m, v) in ids)
  }

  /** The hash holds the printed sessions with their ids, and nothing else. */
  ghost predicate Encodes(hash: map<string, nat>, ids: map<Key, nat>) {
    && (forall k :: k in ids ==> WellNamed(k) && Print(k) in hash && hash[Print(k)] == ids[k])
    && (forall f :: f in hash ==> exists k :: k in ids && Print(k) == f)
  }

  lemma PrintIsInjective(ids: map<Key, nat>)
    requires forall k :: k in ids ==> WellNamed(k)
    ensures forall j, k :: j in ids && k in ids && Print(j) == Print(k) ==> j == k
  {
    forall j, k | j in ids && k in ids && Print(j) == Print(k) ensures j == k {
      ParsePrint(j);
      ParsePrint(k);
    }
  }

  /** The hash that `seen` and `end` maintain. */
  function HashOf(ids: map<Key, nat>): map<string, nat>
    requires forall k :: k in ids ==> WellNamed(k)
  {
    PrintIsInjective(ids);
    map k | k in ids :: Print(k) := ids[k]
  }

  /** Well-named sessions keep their own fields: the hash of a table encodes it. */
  lemma HashEncodes(ids: map<Key, nat>)
    requires forall k :: k in ids ==> WellNamed(k)
    ensures Encodes(HashOf(ids), ids)
  {
    PrintIsInjective(ids);
    hide WellNamed;
  }

  ghost predicate Leaf(ids: map<Key, nat>, k: Key) {
    k in ids && forall c :: c in ids && Under(c, k) ==> c == k
  }

  /** The announcement of `k`, with the ids of its parents and the port of its MAC. */
  function NewNote(ids: map<Key, nat>, ports: map<Mac, Port>, k: Key): Note
    requires Rooted(ids) && k in ids
  {
    var port := if k.mac in ports then Some(ports[k.mac]) else None;
    match k
    case MacKey(m) => NewMac(m, ids[k], port)
    case VlanKey(m, v) => NewVlan(m, ids[MacKey(m)], v, ids[k], port)
    case IpKey(m, v, i) => NewIp(m, ids[MacKey(m)], v, ids[VlanKey(m, v)], i, ids[k], port)
  }

  /** The announcements of `targets`, in order. */
  function NewNotesOf(ids: map<Key, nat>, ports: map<Mac, Port>, targets: seq<Key>): seq<Note>
    requires Rooted(ids) && forall k :: k in targets ==> k in ids
  {
    if targets == [] then []
    else NewNotesOf(ids, ports, targets[..|targets| - 1]) + [NewNote(ids, ports, targets[|targets| - 1])]
  }

  /** One field is read back as the one session it was printed from. */
  method ReadField(field: string, hash: map<string, nat>, ghost ids: map<Key, nat>) returns (k: Key)
    requires Encodes(hash, ids) && field in hash
    ensures k in ids && Print(k) == field && forall j :: j in ids && Print(j) == field ==> j == k
  {
    ghost var owner :| owner in ids && Print(owner) == field;
    ParsePrint(owner);
    k := Parse(field).value;
    forall j | j in ids && Print(j) == field ensures j == owner {
      ParsePrint(j);
    }
  }

  /** `get_current_session_ids`. */
  method CurrentIds(hash: map<string, nat>, ghost ids: map<Key, nat>) returns (current: map<Key, nat>)
    requires Encodes(hash, ids)
    ensures current == ids
  {
    current := map[];
    var todo := hash.Keys;
    while todo != {}
      invariant todo <= hash.Keys
      invariant forall k :: k in current <==> k in ids && Print(k) !in todo
      invariant forall k :: k in current ==> current[k] == ids[k]
      decreases todo
    {
      var f :| f in todo;
      var k := ReadField(f, hash, ids);
      current := current[k := hash[f]];
      todo := todo - {f};
    }
  }

  method Levels(current: map<Key, nat>) returns (ips: set<Key>, vlans: set<Key>, macs: set<Key>)
    ensures ips == (set k | k in current && k.IpKey?)
    ensures vlans == (set k | k in current && k.VlanKey?)
    ensures macs == (set k | k in current && k.MacKey?)
  {
    ips, vlans, macs := {}, {}, {};
    var todo := current.Keys;
    while todo != {}
      invariant todo <= current.Keys
      invariant ips == (set k | k in current && k.IpKey? && k !in todo)
      invariant vlans == (set k | k in current && k.VlanKey? && k !in todo)
      invariant macs == (set k | k in current && k.MacKey? && k !in todo)
      decreases todo
    {
      var k :| k in todo;
      match k {
        case IpKey(_, _, _) => ips := ips + {k};
        case VlanKey(_, _) => vlans := vlans + {k};
        case MacKey(_) => macs := macs + {k};
      }
      todo := todo - {k};
    }
  }

  /** One of the three sending loops: every session of `level` is announced, and its ancestors are discarded from
      the levels above. */
  method SendLevel(current: map<Key, nat>, ports: map<Mac, Port>, level: set<Key>, vlans: set<Key>, macs: set<Key>,
                   ghost before: seq<Key>, notes: seq<Note>)
    returns (sent: seq<Note>, vlans': set<Key>, macs': set<Key>, ghost targets: seq<Key>)
    requires Rooted(current) && level <= current.Keys
    requires (forall k :: k in before ==> k in current && k !in level) && Distinct(before)
    requires notes == NewNotesOf(current, ports, before)
    ensures forall k :: k in targets <==> k in before || k in level
    ensures Distinct(targets) && sent == NewNotesOf(current, ports, targets)
    ensures vlans' == (set v | v in vlans && !exists k :: k in level && Under(k, v))
    ensures macs' == (set m | m in macs && !exists k :: k in level && Under(k, m))
  {
    sent, vlans', macs', targets := notes, vlans, macs, before;
    var todo := level;
    while todo != {}
      invariant todo <= level
      invariant forall k :: k in targets <==> k in before || (k in level && k !in todo)
      invariant Distinct(targets) && sent == NewNotesOf(current, ports, targets)
      invariant vlans' == (set v | v in vlans && !exists k :: k in level - todo && Under(k, v))
      invariant macs' == (set m | m in macs && !exists k :: k in level - todo && Under(k, m))
      decreases todo
    {
      var k :| k in todo;
      ghost var longer := targets + [k];
      assert longer[..|longer| - 1] == targets && k !in targets;
      sent, targets := sent + [NewNote(current, ports, k)], longer;
      vlans' := set v | v in vlans' && !Under(k, v);
      macs' := set m | m in macs' && !Under(k, m);
      todo := todo - {k};
    }
  }

  /** The sessions the announcements of `targets` make known: the targets and their ancestors. */
  ghost function Above(ids: map<Key, nat>, targets: seq<Key>): map<Key, nat> {
    map k | k in ids && (exists t :: t in targets && Under(t, k)) :: ids[k]
  }

  lemma HeardNew(ids: map<Key, nat>, ports: map<Mac, Port>, table: map<Key, nat>, t: Key)
    requires Rooted(ids) && t in ids
    ensures Heard(table, NewNote(ids, ports, t)) == table + (map k | k in ids && Under(t, k) :: ids[k])
  {
  }

  lemma AboveMore(ids: map<Key, nat>, front: seq<Key>, last: Key)
    ensures Above(ids, front + [last]) == Above(ids, front) + (map k | k in ids && Under(last, k) :: ids[k])
  {
    hide Under;
    var targets := front + [last];
    forall t ensures t in targets <==> t in front || t == last {}
  }

  lemma {:induction false} ReplayNew(ids: map<Key, nat>, ports: map<Mac, Port>, targets: seq<Key>)
    requires Rooted(ids) && forall k :: k in targets ==> k in ids
    ensures Replay(NewNotesOf(ids, ports, targets)) == Above(ids, targets)
    ensures |NewNotesOf(ids, ports, targets)| == |targets|
  {
    if targets == [] {
      assert Above(ids, targets) == map[];
    } else {
      var front, last := targets[..|targets| - 1], targets[|targets| - 1];
      assert targets == front + [last];
      hide Replay, Above, Heard, Rooted, Under;
      ReplayNew(ids, ports, front);
      ReplayOne(NewNotesOf(ids, ports, front), NewNote(ids, ports, last));
      HeardNew(ids, ports, Above(ids, front), last);
      AboveMore(ids, front, last);
    }
  }

  /** The ports of the MACs that `targets` are about. */
  ghost function PortsOf(ports: map<Mac, Port>, targets: seq<Key>): map<Mac, Port> {
    map m | m in ports && (exists t :: t in targets && t.mac == m) :: ports[m]
  }

  lemma HeardNewPort(ids: map<Key, nat>, ports: map<Mac, Port>, table: map<Mac, Port>, t: Key)
    requires Rooted(ids) && t in ids
    ensures HeardPort(table, NewNote(ids, ports, t))
         == if t.mac in ports then table[t.mac := ports[t.mac]] else table
  {
  }

  lemma PortsOfMore(ports: map<Mac, Port>, front: seq<Key>, last: Key)
    ensures PortsOf(ports, front + [last])
         == if last.mac in ports then PortsOf(ports, front)[last.mac := ports[last.mac]] else PortsOf(ports, front)
  {
    var all := front + [last];
    forall t ensures t in all <==> t in front || t == last {}
    assert last in all;
  }

  lemma {:induction false} ReplayNewPorts(ids: map<Key, nat>, ports: map<Mac, Port>, targets: seq<Key>)
    requires Rooted(ids) && forall k :: k in targets ==> k in ids
    ensures ReplayPorts(NewNotesOf(ids, ports, targets)) == PortsOf(ports, targets)
  {
    if targets != [] {
      var front, last := targets[..|targets| - 1], targets[|targets| - 1];
      assert targets == front + [last];
      ReplayNewPorts(ids, ports, front);
      ReplayPortsOne(NewNotesOf(ids, ports, front), NewNote(ids, ports, last));
      hide ReplayPorts, PortsOf, HeardPort, Rooted;
      HeardNewPort(ids, ports, PortsOf(ports, front), last);
      PortsOfMore(ports, front, last);
    }
  }

  lemma HasLeaf(ids: map<Key, nat>, k: Key) returns (leaf: Key)
    requires Rooted(ids) && k in ids
    ensures Leaf(ids, leaf) && Under(leaf, k)
  {
    if i :| i in ids && i.IpKey? && Under(i, k) {
      leaf := i;
    } else if v :| v in ids && v.VlanKey? && Under(v, k) {
      leaf := v;
    } else {
      leaf := k;
    }
  }

  /** The leaves alone make the whole table known. */
  lemma LeavesRebuild(ids: map<Key, nat>, targets: seq<Key>)
    requires Rooted(ids) && forall k :: k in targets <==> Leaf(ids, k)
    ensures Above(ids, targets) == ids
  {
    forall k | k in ids ensures exists t :: t in targets && Under(t, k) {
      var leaf := HasLeaf(ids, k);
      assert leaf in targets;
    }
  }

  lemma LeavesHavePorts(ids: map<Key, nat>, ports: map<Mac, Port>, targets: seq<Key>)
    requires Rooted(ids) && (forall k :: k in targets <==> Leaf(ids, k)) && forall m :: m in ports ==> MacKey(m) in ids
    ensures PortsOf(ports, targets) == ports
  {
    forall m | m in ports ensures exists t :: t in targets && t.mac == m {
      var leaf := HasLeaf(ids, MacKey(m));
      assert leaf in targets && leaf.mac == m;
    }
  }

  /** What the three loops announce is what has nothing below it. */
  lemma LevelsAreLeaves(ids: map<Key, nat>, k: Key)
    requires Rooted(ids) && k in ids
    ensures Leaf(ids, k) <==>
              || k.IpKey?
              || (k.VlanKey? && !exists i :: i in ids && i.IpKey? && Under(i, k))
              || (k.MacKey? && !(exists i :: i in ids && i.IpKey? && Under(i, k))
                  && !exists v :: v in ids && v.VlanKey? && Under(v, k))
  {
  }

  ghost predicate CoversOnly(targets: seq<Key>, ips: set<Key>, vlans: set<Key>, macs: set<Key>) {
    Distinct(targets) && forall k :: k in targets <==> k in ips || k in vlans || k in macs
  }

  /** The three sending loops in a row. */
  method SendAll(current: map<Key, nat>, ports: map<Mac, Port>, ips: set<Key>, vlans: set<Key>, macs: set<Key>)
    returns (notes: seq<Note>, ghost targets: seq<Key>, ghost freeVlans: set<Key>, ghost freeMacs: set<Key>)
    requires Rooted(current) && ips + vlans + macs <= current.Keys && ips !! vlans !! macs
    ensures forall k :: k in targets ==> k in current
    ensures notes == NewNotesOf(current, ports, targets) && CoversOnly(targets, ips, freeVlans, freeMacs)
    ensures freeVlans == (set v | v in vlans && !exists i :: i in ips && Under(i, v))
    ensures freeMacs == (set m | m in macs && (!exists i :: i in ips && Under(i, m))
                                           && !exists v :: v in freeVlans && Under(v, m))
  {
    var vs, ms;
    notes, vs, ms, targets := SendLevel(current, ports, ips, vlans, macs, [], []);
    freeVlans := vs;
    var ms1;
    notes, vs, ms1, targets := SendLevel(current, ports, vs, {}, ms, targets, notes);
    freeMacs := ms1;
    notes, vs, ms, targets := SendLevel(current, ports, ms1, {}, {}, targets, notes);
  }

  /** Every message is about a leaf of the forest, every leaf has one, and together they rebuild the table and the
      ports of the live MACs. */
  ghost predicate Resends(ids: map<Key, nat>, ports: map<Mac, Port>, notes: seq<Note>, targets: seq<Key>)
    requires Rooted(ids)
  {
    && (forall k :: k in targets ==> k in ids)
    && Distinct(targets) && (forall k :: k in targets <==> Leaf(ids, k))
    && notes == NewNotesOf(ids, ports, targets) && |notes| == |targets|
    && Replay(notes) == ids
    && ((forall m :: m in ports ==> MacKey(m) in ids) ==> ReplayPorts(notes) == ports)
  }

  /** The body of `notify_current_sessions`, once the hash has been read. */
  method Resend(current: map<Key, nat>, ports: map<Mac, Port>) returns (notes: seq<Note>, ghost targets: seq<Key>)
    requires Rooted(current)
    ensures Resends(current, ports, notes, targets)
    ensures Replay(notes) == current
  {
    var ips, vlans, macs := Levels(current);
    ghost var freeVlans, freeMacs;
    notes, targets, freeVlans, freeMacs := SendAll(current, ports, ips, vlans, macs);
    AnnouncedLeaves(current, ips, freeVlans, freeMacs, targets);
    LeavesRebuild(current, targets);
    ReplayNew(current, ports, targets);
    ReplayNewPorts(current, ports, targets);
    if forall m :: m in ports ==> MacKey(m) in current {
      LeavesHavePorts(current, ports, targets);
    }
  }

  /** `notify_current_sessions`: the count of the messages sent, which is the number of leaves, is returned. */
  method NotifyCurrentSessions(hash: map<string, nat>, ports: map<Mac, Port>, ghost ids: map<Key, nat>)
    returns (notes: seq<Note>, count: nat, ghost targets: seq<Key>)
    requires Encodes(hash, ids) && Rooted(ids)
    ensures Resends(ids, ports, notes, targets) && count == |targets|
    ensures count == |notes| && Replay(notes) == ids
  {
    var current := CurrentIds(hash, ids);
    notes, targets := Resend(current, ports);
    count := |notes|;
  }

  /** On the store of any run, the resent messages alone rebuild all ids and all ports. */
  method NotifyStore(s: State) returns (notes: seq<Note>, count: nat, ghost targets: seq<Key>)
    requires R.Good(s) && forall k :: k in s.ids ==> WellNamed(k)
    ensures count == |notes| && Replay(notes) == s.ids && ReplayPorts(notes) == s.ports
    ensures |targets| == count && Distinct(targets)
    ensures forall k :: k in targets <==> Leaf(s.ids, k)
  {
    hide WellNamed;
    HashEncodes(s.ids);
    notes, count, targets := NotifyCurrentSessions(HashOf(s.ids), s.ports, s.ids);
  }

  lemma AnnouncedLeaves(ids: map<Key, nat>, ips: set<Key>, vlans: set<Key>, macs: set<Key>, targets: seq<Key>)
    requires Rooted(ids) && CoversOnly(targets, ips, vlans, macs)
    requires ips == set k | k in ids && k.IpKey?
    requires vlans == set v | v in ids && v.VlanKey? && !exists i :: i in ips && Under(i, v)
    requires macs == set m | m in ids && m.MacKey? && (!exists i :: i in ips && Under(i, m))
                             && !exists v :: v in vlans && Under(v, m)
    ensures forall k :: k in targets <==> Leaf(ids, k)
  {
    forall k | k in ids ensures k in targets <==> Leaf(ids, k) {
      LevelsAreLeaves(ids, k);
    }
  }
}
