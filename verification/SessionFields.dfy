/** The fields of the session-id hash: `session_ids_field` prints a session, and `field_to_mac_vlan_ip` reads it
    back with the lazy pattern mac=(.+?)($|,vlan=(.+?)($|,ip=(.+?)$)). */
module SessionFields {
  import opened Common
  import opened Sessions

  const MAC := "mac="
  const VLAN := ",vlan="
  const IP := ",ip="

  function Print(k: Key): string {
    match k
    case MacKey(m) => MAC + m
    case VlanKey(m, v) => MAC + m + VLAN + v
    case IpKey(m, v, i) => MAC + m + VLAN + v + IP + i
  }

  /** The format of the fields. */
  lemma FieldsAre(m: string, v: string, i: string)
    ensures Print(MacKey(m)) == "mac=" + m
    ensures Print(VlanKey(m, v)) == "mac=" + m + ",vlan=" + v
    ensures Print(IpKey(m, v, i)) == "mac=" + m + ",vlan=" + v + ",ip=" + i
  {
  }

  /** The literal `lit` stands at position `i`. */
  predicate At(s: string, i: nat, lit: string) {
    i + |lit| <= |s| && s[i..i + |lit|] == lit
  }

  /** `$`: at the end, or before a newline that ends the string. */
  predicate Dollar(s: string, i: nat) {
    i == |s| || (i + 1 == |s| && s[i] == '\n')
  }

  /** `.` matches anything but a newline. */
  predicate Dot(s: string, i: nat) {
    i < |s| && s[i] != '\n'
  }

  /** The end of the ip group, tried from `e` on. */
  function FindIp(s: string, e: nat): Option<nat>
    decreases |s| - e
  {
    if Dollar(s, e) then Some(e) else if Dot(s, e) then FindIp(s, e + 1) else None
  }

  /** What follows the vlan group: nothing, or an ip given by its start and end. */
  datatype VlanMatch = VlanMatch(end: nat, ip: Option<(nat, nat)>)

  function IpFrom(s: string, start: nat): Option<nat> {
    if Dot(s, start) then FindIp(s, start + 1) else None
  }

  function FindVlan(s: string, e: nat): Option<VlanMatch>
    decreases |s| - e
  {
    if Dollar(s, e) then Some(VlanMatch(e, None))
    else if At(s, e, IP) && IpFrom(s, e + |IP|).Some? then
      Some(VlanMatch(e, Some((e + |IP|, IpFrom(s, e + |IP|).value))))
    else if Dot(s, e) then FindVlan(s, e + 1)
    else None
  }

  function VlanFrom(s: string, start: nat): Option<VlanMatch> {
    if Dot(s, start) then FindVlan(s, start + 1) else None
  }

  datatype MacMatch = MacMatch(end: nat, vlan: Option<(nat, VlanMatch)>)

  function FindMac(s: string, e: nat): Option<MacMatch>
    decreases |s| - e
  {
    if Dollar(s, e) then Some(MacMatch(e, None))
    else if At(s, e, VLAN) && VlanFrom(s, e + |VLAN|).Some? then
      Some(MacMatch(e, Some((e + |VLAN|, VlanFrom(s, e + |VLAN|).value))))
    else if Dot(s, e) then FindMac(s, e + 1)
    else None
  }

  /** `field_to_mac_vlan_ip`; `None` is a field that does not match. */
  function Parse(s: string): Option<Key> {
    if At(s, 0, MAC) && Dot(s, |MAC|) then
      match FindMac(s, |MAC| + 1)
      case None => None
      case Some(m) => Some(MatchedKey(s, m))
    else None
  }

  function Slice(s: string, i: nat, j: nat): string {
    if i <= j <= |s| then s[i..j] else ""
  }

  function MatchedKey(s: string, m: MacMatch): Key {
    var mac := Slice(s, |MAC|, m.end);
    match m.vlan
    case None => MacKey(mac)
    case Some((vstart, v)) =>
      var vlan := Slice(s, vstart, v.end);
      match v.ip
      case None => VlanKey(mac, vlan)
      case Some((istart, iend)) => IpKey(mac, vlan, Slice(s, istart, iend))
  }

  // Printing, then parsing.

  ghost predicate Contains(s: string, lit: string) {
    exists i: nat :: At(s, i, lit)
  }

  ghost predicate Plain(s: string) {
    s != "" && '\n' !in s
  }

  /** Non-empty names without newlines, no ",vlan=" in the MAC and no ",ip=" in the VLAN. */
  ghost predicate WellNamed(k: Key) {
    && Plain(k.mac) && !Contains(k.mac, VLAN)
    && (!k.MacKey? ==> Plain(k.vlan) && !Contains(k.vlan, IP))
    && (k.IpKey? ==> Plain(k.ip))
  }

  lemma AtInside(s: string, from: nat, to: nat, lit: string, e: nat)
    requires from <= e && e + |lit| <= to <= |s| && At(s, e, lit)
    ensures Contains(s[from..to], lit)
  {
    var name, i := s[from..to], e - from;
    forall k | 0 <= k < |lit| ensures name[i..i + |lit|][k] == lit[k] {
      assert name[i + k] == s[e + k] && s[e + k] == s[e..e + |lit|][k];
    }
    assert At(name, i, lit);
  }

  /** Within a name that does not contain the separator, and is followed by a comma or nothing, there is none. */
  lemma NoEarlySeparator(s: string, from: nat, to: nat, lit: string, e: nat)
    requires from <= e < to <= |s| && !Contains(s[from..to], lit)
    requires to == |s| || s[to] == ','
    requires |lit| > 0 && forall j :: 0 < j < |lit| ==> lit[j] != ','
    ensures !At(s, e, lit)
  {
    if At(s, e, lit) && e + |lit| <= to {
      AtInside(s, from, to, lit, e);
    }
  }

  lemma {:induction false} FindIpAtEnd(s: string, e: nat)
    requires e <= |s| && '\n' !in s
    ensures FindIp(s, e) == Some(|s|)
    decreases |s| - e
  {
    if e < |s| {
      assert s[e] in s;
      FindIpAtEnd(s, e + 1);
    }
  }

  /** The vlan group reaches the end of the name. */
  lemma {:induction false} FindVlanSkips(s: string, from: nat, to: nat, e: nat)
    requires from <= e <= to <= |s| && '\n' !in s && !Contains(s[from..to], IP) && (to == |s| || s[to] == ',')
    ensures FindVlan(s, e) == FindVlan(s, to)
    decreases |s| - e
  {
    if e < to {
      assert s[e] in s;
      NoEarlySeparator(s, from, to, IP, e);
      FindVlanSkips(s, from, to, e + 1);
    }
  }

  lemma {:induction false} FindMacSkips(s: string, from: nat, to: nat, e: nat)
    requires from <= e <= to <= |s| && '\n' !in s && !Contains(s[from..to], VLAN) && (to == |s| || s[to] == ',')
    ensures FindMac(s, e) == FindMac(s, to)
    decreases |s| - e
  {
    if e < to {
      assert s[e] in s;
      NoEarlySeparator(s, from, to, VLAN, e);
      FindMacSkips(s, from, to, e + 1);
    }
  }

  lemma ParsesMac(s: string, m: string)
    requires s == MAC + m && Plain(m) && !Contains(m, VLAN)
    ensures Parse(s) == Some(MacKey(m))
  {
    assert s[|MAC|..|s|] == m && s[0..|MAC|] == MAC && s[|MAC|] == m[0];
    FindMacSkips(s, |MAC|, |s|, |MAC| + 1);
    assert FindMac(s, |s|) == Some(MacMatch(|s|, None));
  }

  /** A vlan group that reaches the end of the field, */
  lemma VlanAtEnd(s: string, start: nat)
    requires start < |s| && '\n' !in s && !Contains(s[start..|s|], IP)
    ensures VlanFrom(s, start) == Some(VlanMatch(|s|, None))
  {
    hide Contains;
    assert s[start] in s;
    FindVlanSkips(s, start, |s|, start + 1);
  }

  /** or one that ends at an ip group. */
  lemma VlanBeforeIp(s: string, start: nat, vto: nat)
    requires start < vto && vto + |IP| < |s| && '\n' !in s && At(s, vto, IP) && !Contains(s[start..vto], IP)
    ensures VlanFrom(s, start) == Some(VlanMatch(vto, Some((vto + |IP|, |s|))))
  {
    hide Contains;
    assert s[vto] == s[vto..vto + |IP|][0] == ',';
    assert s[start] in s && s[vto + |IP|] in s;
    FindVlanSkips(s, start, vto, start + 1);
    FindIpAtEnd(s, vto + |IP| + 1);
    hide FindIp;
  }

  /** The mac group ends where the first vlan group that matches begins. */
  lemma MacBeforeVlan(s: string, to: nat, v: VlanMatch)
    requires |MAC| < to && to + |VLAN| < |s| && '\n' !in s && At(s, 0, MAC) && At(s, to, VLAN)
    requires !Contains(s[|MAC|..to], VLAN) && VlanFrom(s, to + |VLAN|) == Some(v)
    ensures Parse(s) == Some(MatchedKey(s, MacMatch(to, Some((to + |VLAN|, v)))))
  {
    hide Contains, VlanFrom, MatchedKey;
    assert s[to] == s[to..to + |VLAN|][0] == ',';
    assert s[|MAC|] in s;
    FindMacSkips(s, |MAC|, to, |MAC| + 1);
  }

  lemma ParsesVlan(s: string, m: string, v: string)
    requires s == MAC + m + VLAN + v
    requires Plain(m) && !Contains(m, VLAN) && Plain(v) && !Contains(v, IP)
    ensures Parse(s) == Some(VlanKey(m, v))
  {
    hide Contains, Parse, VlanFrom;
    var to := |MAC| + |m|;
    var start := to + |VLAN|;
    assert s[0..|MAC|] == MAC && s[|MAC|..to] == m && s[to..start] == VLAN && s[start..|s|] == v;
    VlanAtEnd(s, start);
    MacBeforeVlan(s, to, VlanMatch(|s|, None));
  }

  lemma ParsesIp(s: string, m: string, v: string, i: string)
    requires s == MAC + m + VLAN + v + IP + i
    requires Plain(m) && !Contains(m, VLAN) && Plain(v) && !Contains(v, IP) && Plain(i)
    ensures Parse(s) == Some(IpKey(m, v, i))
  {
    hide Contains, Parse, VlanFrom;
    var to := |MAC| + |m|;
    var start := to + |VLAN|;
    var vto := start + |v|;
    var istart := vto + |IP|;
    assert s[0..|MAC|] == MAC && s[|MAC|..to] == m && s[to..start] == VLAN;
    assert s[start..vto] == v && s[vto..istart] == IP && s[istart..|s|] == i;
    VlanBeforeIp(s, start, vto);
    MacBeforeVlan(s, to, VlanMatch(vto, Some((istart, |s|))));
  }

  /** The parser undoes the printer; in particular no two well-named sessions share a field. */
  lemma ParsePrint(k: Key)
    requires WellNamed(k)
    ensures Parse(Print(k)) == Some(k)
  {
    match k {
      case MacKey(m) => ParsesMac(Print(k), m);
      case VlanKey(m, v) => ParsesVlan(Print(k), m, v);
      case IpKey(m, v, i) => ParsesIp(Print(k), m, v, i);
    }
  }

  // Parsing, then printing.

  ghost predicate VlanShape(s: string, from: nat, v: VlanMatch) {
    && from <= v.end <= |s|
    && match v.ip
       case None => v.end == |s|
       case Some((i, j)) => At(s, v.end, IP) && i == v.end + |IP| < j == |s|
  }

  ghost predicate MacShape(s: string, m: MacMatch) {
    && |MAC| <= m.end <= |s|
    && match m.vlan
       case None => m.end == |s|
       case Some((start, v)) => At(s, m.end, VLAN) && start == m.end + |VLAN| && VlanShape(s, start, v)
  }

  lemma {:induction false} FindVlanShape(s: string, start: nat, e: nat)
    requires '\n' !in s && start <= e <= |s| && FindVlan(s, e).Some?
    ensures VlanShape(s, start, FindVlan(s, e).value)
    decreases |s| - e
  {
    assert e < |s| ==> s[e] in s;
    if Dollar(s, e) {
    } else if At(s, e, IP) && IpFrom(s, e + |IP|).Some? {
      FindIpAtEnd(s, e + |IP| + 1);
    } else {
      FindVlanShape(s, start, e + 1);
    }
  }

  lemma {:induction false} FindMacShape(s: string, e: nat)
    requires '\n' !in s && |MAC| <= e <= |s| && FindMac(s, e).Some?
    ensures MacShape(s, FindMac(s, e).value)
    decreases |s| - e
  {
    assert e < |s| ==> s[e] in s;
    if Dollar(s, e) {
    } else if At(s, e, VLAN) && VlanFrom(s, e + |VLAN|).Some? {
      FindVlanShape(s, e + |VLAN|, e + |VLAN| + 1);
    } else {
      FindMacShape(s, e + 1);
    }
  }

  lemma Split(s: string, i: nat, j: nat, lit: string)
    requires i <= j <= |s| && At(s, j, lit)
    ensures s[i..|s|] == s[i..j] + lit + s[j + |lit|..|s|]
  {
  }

  lemma JoinMac(s: string)
    requires At(s, 0, MAC)
    ensures MAC + s[|MAC|..|s|] == s
  {
    Split(s, 0, 0, MAC);
  }

  lemma JoinVlan(s: string, to: nat)
    requires At(s, 0, MAC) && |MAC| <= to && At(s, to, VLAN)
    ensures MAC + s[|MAC|..to] + VLAN + s[to + |VLAN|..|s|] == s
  {
    JoinMac(s);
    Split(s, |MAC|, to, VLAN);
  }

  lemma JoinIp(s: string, to: nat, vto: nat)
    requires At(s, 0, MAC) && |MAC| <= to && At(s, to, VLAN) && to + |VLAN| <= vto && At(s, vto, IP)
    ensures MAC + s[|MAC|..to] + VLAN + s[to + |VLAN|..vto] + IP + s[vto + |IP|..|s|] == s
  {
    JoinVlan(s, to);
    Split(s, to + |VLAN|, vto, IP);
    var a, b := MAC + s[|MAC|..to] + VLAN, s[to + |VLAN|..vto];
    assert a + (b + IP + s[vto + |IP|..|s|]) == a + b + IP + s[vto + |IP|..|s|];
  }

  lemma PrintMatchedVlan(s: string, to: nat, v: VlanMatch)
    requires At(s, 0, MAC) && |MAC| <= to && At(s, to, VLAN) && VlanShape(s, to + |VLAN|, v)
    ensures Print(MatchedKey(s, MacMatch(to, Some((to + |VLAN|, v))))) == s
  {
    if v.ip.None? {
      JoinVlan(s, to);
    } else {
      JoinIp(s, to, v.end);
    }
  }

  lemma PrintMatched(s: string, m: MacMatch)
    requires At(s, 0, MAC) && MacShape(s, m)
    ensures Print(MatchedKey(s, m)) == s
  {
    match m.vlan {
      case None => JoinMac(s);
      case Some((_, v)) =>
        hide Print, MatchedKey, VlanShape;
        PrintMatchedVlan(s, m.end, v);
    }
  }

  /** The printer undoes the parser on every field it accepts. */
  lemma PrintParse(s: string)
    requires '\n' !in s && Parse(s).Some?
    ensures Print(Parse(s).value) == s
  {
    FindMacShape(s, |MAC| + 1);
    PrintMatched(s, FindMac(s, |MAC| + 1).value);
  }
}
