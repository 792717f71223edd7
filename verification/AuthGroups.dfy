/** The group compiler of elan/authentication.py: nested and possibly cyclic groups become one list of providers to
    try in order. */
module AuthGroups {
  type Id = string

  datatype Kind = Ldap | ActiveDirectory | External

  datatype Auth = Group(members: seq<Id>) | Single(kind: Kind)

  /** `self.authentications`, keyed by id. */
  type Conf = map<Id, Auth>

  /** An undeclared authentication is an external one. */
  function Lookup(conf: Conf, id: Id): Auth {
    if id in conf then conf[id] else Single(External)
  }

  predicate IsGroup(conf: Conf, id: Id) {
    Lookup(conf, id).Group?
  }

  // The walk, with the visited set passed along.

  /** The providers rendered by a call, and the visited set it leaves. */
  datatype Walk = Walk(list: seq<Id>, visited: set<Id>)

  /** `get_group_inner_case`. It terminates on every configuration: a group that is expanded leaves fewer declared ids
      unvisited. */
  function Compile(conf: Conf, id: Id, visited: set<Id>): (w: Walk)
    ensures visited <= w.visited && id in w.visited
    decreases |conf.Keys - visited|, 0
  {
    if id in visited then Walk([], visited)
    else
      match Lookup(conf, id)
      case Single(_) => Walk([id], visited + {id})
      case Group(members) =>
        Shrinks(conf, id, visited);
        CompileAll(conf, members, visited + {id})
  }

  /** The loop over the members of a group. */
  function CompileAll(conf: Conf, ids: seq<Id>, visited: set<Id>): (w: Walk)
    ensures visited <= w.visited && forall id :: id in ids ==> id in w.visited
    decreases |conf.Keys - visited|, |ids| + 1
  {
    if ids == [] then Walk([], visited)
    else
      var first := Compile(conf, ids[0], visited);
      Grows(conf, visited, first.visited);
      var rest := CompileAll(conf, ids[1..], first.visited);
      Walk(first.list + rest.list, rest.visited)
  }

  lemma Shrinks(conf: Conf, id: Id, visited: set<Id>)
    requires id in conf && id !in visited
    ensures |conf.Keys - (visited + {id})| < |conf.Keys - visited|
  {
    assert conf.Keys - visited == (conf.Keys - (visited + {id})) + {id};
  }

  lemma Grows(conf: Conf, visited: set<Id>, more: set<Id>)
    requires visited <= more
    ensures |conf.Keys - more| <= |conf.Keys - visited|
  {
    var a, b := conf.Keys - more, conf.Keys - visited;
    assert b == a + (b - a);
  }

  // The reference: the expansion with repeats.

  /** Every occurrence of every provider, in order; only a group met inside itself is cut off, as its expansion would
      never end. */
  function Expand(conf: Conf, id: Id, path: set<Id>): seq<Id>
    decreases |conf.Keys - path|, 0
  {
    if id in path then []
    else
      match Lookup(conf, id)
      case Single(_) => [id]
      case Group(members) =>
        Shrinks(conf, id, path);
        ExpandAll(conf, members, path + {id})
  }

  function ExpandAll(conf: Conf, ids: seq<Id>, path: set<Id>): seq<Id>
    decreases |conf.Keys - path|, |ids| + 1
  {
    if ids == [] then [] else Expand(conf, ids[0], path) + ExpandAll(conf, ids[1..], path)
  }

  /** The first occurrence of everything not in `seen`. */
  function FirstOccurrences(ids: seq<Id>, seen: set<Id>): seq<Id> {
    if ids == [] then []
    else if ids[0] in seen then FirstOccurrences(ids[1..], seen)
    else [ids[0]] + FirstOccurrences(ids[1..], seen + {ids[0]})
  }

  /** Members of a visited group are visited, except while the group is being expanded. */
  ghost predicate Closed(conf: Conf, visited: set<Id>, path: set<Id>) {
    forall g, m :: g in visited && g !in path && IsGroup(conf, g) && m in Lookup(conf, g).members ==> m in visited
  }

  function Elements(ids: seq<Id>): set<Id> {
    set x | x in ids
  }

  lemma {:induction false} FirstOccurrencesConcat(a: seq<Id>, b: seq<Id>, seen: set<Id>)
    ensures FirstOccurrences(a + b, seen) == FirstOccurrences(a, seen) + FirstOccurrences(b, seen + Elements(a))
  {
    if a == [] {
      assert a + b == b && seen + Elements(a) == seen;
    } else {
      var seen1 := seen + {a[0]};
      assert (a + b)[1..] == a[1..] + b && (a + b)[0] == a[0];
      assert Elements(a) == {a[0]} + Elements(a[1..]);
      FirstOccurrencesConcat(a[1..], b, if a[0] in seen then seen else seen1);
      assert (if a[0] in seen then seen else seen1) + Elements(a[1..]) == seen + Elements(a);
    }
  }

  /** Only what is seen among the elements themselves matters. */
  lemma {:induction false} FirstOccurrencesSame(ids: seq<Id>, seen: set<Id>, seen': set<Id>)
    requires forall x :: x in ids ==> (x in seen <==> x in seen')
    ensures FirstOccurrences(ids, seen) == FirstOccurrences(ids, seen')
  {
    if ids != [] {
      if ids[0] in seen {
        FirstOccurrencesSame(ids[1..], seen, seen');
      } else {
        FirstOccurrencesSame(ids[1..], seen + {ids[0]}, seen' + {ids[0]});
      }
    }
  }

  lemma {:induction false} FirstOccurrencesNone(ids: seq<Id>, seen: set<Id>)
    requires forall x :: x in ids ==> x in seen
    ensures FirstOccurrences(ids, seen) == []
  {
    if ids != [] {
      FirstOccurrencesNone(ids[1..], seen);
    }
  }

  /** Each element once, and no element lost. */
  lemma {:induction false} FirstOccurrencesAreAll(ids: seq<Id>, seen: set<Id>)
    ensures var f := FirstOccurrences(ids, seen);
            && (forall x :: x in f <==> x in ids && x !in seen)
            && (forall i, j :: 0 <= i < j < |f| ==> f[i] != f[j])
  {
    if ids != [] {
      if ids[0] in seen {
        FirstOccurrencesAreAll(ids[1..], seen);
      } else {
        FirstOccurrencesAreAll(ids[1..], seen + {ids[0]});
      }
    }
  }

  lemma {:induction false} ExpandIsSingles(conf: Conf, id: Id, path: set<Id>)
    ensures forall x :: x in Expand(conf, id, path) ==> !IsGroup(conf, x)
    decreases |conf.Keys - path|, 0
  {
    if id !in path && IsGroup(conf, id) {
      Shrinks(conf, id, path);
      ExpandAllIsSingles(conf, Lookup(conf, id).members, path + {id});
    }
  }

  lemma {:induction false} ExpandAllIsSingles(conf: Conf, ids: seq<Id>, path: set<Id>)
    ensures forall x :: x in ExpandAll(conf, ids, path) ==> !IsGroup(conf, x)
    decreases |conf.Keys - path|, |ids| + 1
  {
    if ids != [] {
      ExpandIsSingles(conf, ids[0], path);
      ExpandAllIsSingles(conf, ids[1..], path);
    }
  }

  /** Whatever lies below a visited id has been visited already. */
  lemma {:induction false} VisitedBelow(conf: Conf, id: Id, visited: set<Id>, path: set<Id>)
    requires Closed(conf, visited, path) && id in visited
    ensures forall x :: x in Expand(conf, id, path) ==> x in visited
    decreases |conf.Keys - path|, 0
  {
    if id !in path && IsGroup(conf, id) {
      Shrinks(conf, id, path);
      VisitedBelowAll(conf, Lookup(conf, id).members, visited, path + {id});
    }
  }

  lemma {:induction false} VisitedBelowAll(conf: Conf, ids: seq<Id>, visited: set<Id>, path: set<Id>)
    requires Closed(conf, visited, path) && forall id :: id in ids ==> id in visited
    ensures forall x :: x in ExpandAll(conf, ids, path) ==> x in visited
    decreases |conf.Keys - path|, |ids| + 1
  {
    if ids != [] {
      VisitedBelow(conf, ids[0], visited, path);
      VisitedBelowAll(conf, ids[1..], visited, path);
    }
  }

  /** The walk `w` from `visited` did what an expansion to `all` asks for: each provider at its first occurrence. */
  ghost predicate Flattens(conf: Conf, w: Walk, all: seq<Id>, visited: set<Id>, path: set<Id>) {
    && Closed(conf, w.visited, path)
    && w.list == FirstOccurrences(all, visited)
    && forall x :: !IsGroup(conf, x) ==> (x in w.visited <==> x in visited || x in all)
  }

  /** The compiled list is the expansion with the repeats left out, on every configuration, cyclic ones included. */
  lemma {:induction false} CompileFlattens(conf: Conf, id: Id, visited: set<Id>, path: set<Id>)
    requires path <= visited && Closed(conf, visited, path)
    ensures Flattens(conf, Compile(conf, id, visited), Expand(conf, id, path), visited, path)
    decreases |conf.Keys - visited|, 0
  {
    if id in visited {
      VisitedBelow(conf, id, visited, path);
      FirstOccurrencesNone(Expand(conf, id, path), visited);
    } else if IsGroup(conf, id) {
      Shrinks(conf, id, visited);
      CompileAllFlattens(conf, Lookup(conf, id).members, visited + {id}, path + {id});
      var all := Expand(conf, id, path);
      ExpandIsSingles(conf, id, path);
      FirstOccurrencesSame(all, visited + {id}, visited);
    }
  }

  lemma {:induction false} CompileAllFlattens(conf: Conf, ids: seq<Id>, visited: set<Id>, path: set<Id>)
    requires path <= visited && Closed(conf, visited, path)
    ensures Flattens(conf, CompileAll(conf, ids, visited), ExpandAll(conf, ids, path), visited, path)
    decreases |conf.Keys - visited|, |ids| + 1
  {
    if ids != [] {
      var first := Compile(conf, ids[0], visited);
      var a, b := Expand(conf, ids[0], path), ExpandAll(conf, ids[1..], path);
      CompileFlattens(conf, ids[0], visited, path);
      Grows(conf, visited, first.visited);
      CompileAllFlattens(conf, ids[1..], first.visited, path);
      FirstOccurrencesConcat(a, b, visited);
      ExpandAllIsSingles(conf, ids[1..], path);
      FirstOccurrencesSame(b, first.visited, visited + Elements(a));
    }
  }

  // Reachability.

  /** `p` leads from its first id to its last through group membership. */
  ghost predicate IsPath(conf: Conf, p: seq<Id>) {
    && p != []
    && forall i :: 0 <= i < |p| - 1 ==> IsGroup(conf, p[i]) && p[i + 1] in Lookup(conf, p[i]).members
  }

  ghost predicate Reaches(conf: Conf, from: Id, to: Id) {
    exists p :: IsPath(conf, p) && p[0] == from && p[|p| - 1] == to
  }

  lemma ReachesVia(conf: Conf, group: Id, member: Id, to: Id)
    requires IsGroup(conf, group) && member in Lookup(conf, group).members && Reaches(conf, member, to)
    ensures Reaches(conf, group, to)
  {
    var p :| IsPath(conf, p) && p[0] == member && p[|p| - 1] == to;
    var q := [group] + p;
    assert forall i :: 0 < i < |q| ==> q[i] == p[i - 1];
    assert IsPath(conf, q) && q[|q| - 1] == to;
  }

  lemma {:induction false} VisitedIsReachable(conf: Conf, id: Id, visited: set<Id>, x: Id)
    requires x in Compile(conf, id, visited).visited && x !in visited
    ensures Reaches(conf, id, x)
    decreases |conf.Keys - visited|, 0
  {
    if x == id {
      assert IsPath(conf, [id]);
    } else if IsGroup(conf, id) {
      Shrinks(conf, id, visited);
      var member := VisitedThrough(conf, Lookup(conf, id).members, visited + {id}, x);
      ReachesVia(conf, id, member, x);
    }
  }

  lemma {:induction false} VisitedThrough(conf: Conf, ids: seq<Id>, visited: set<Id>, x: Id) returns (member: Id)
    requires x in CompileAll(conf, ids, visited).visited && x !in visited
    ensures member in ids && Reaches(conf, member, x)
    decreases |conf.Keys - visited|, |ids| + 1
  {
    var first := Compile(conf, ids[0], visited);
    if x in first.visited {
      VisitedIsReachable(conf, ids[0], visited, x);
      member := ids[0];
    } else {
      Grows(conf, visited, first.visited);
      member := VisitedThrough(conf, ids[1..], first.visited, x);
    }
  }

  lemma {:induction false} ClosedKeepsPaths(conf: Conf, visited: set<Id>, p: seq<Id>, i: nat)
    requires Closed(conf, visited, {}) && IsPath(conf, p) && p[0] in visited && i < |p|
    ensures p[i] in visited
  {
    if i > 0 {
      ClosedKeepsPaths(conf, visited, p, i - 1);
    }
  }

  /** From an empty visited set, exactly the providers reachable from the group are rendered, each once. */
  lemma CompilesReachable(conf: Conf, id: Id)
    ensures var list := Compile(conf, id, {}).list;
            && (forall x :: x in list <==> !IsGroup(conf, x) && Reaches(conf, id, x))
            && (forall i, j :: 0 <= i < j < |list| ==> list[i] != list[j])
  {
    var w, all := Compile(conf, id, {}), Expand(conf, id, {});
    CompileFlattens(conf, id, {}, {});
    FirstOccurrencesAreAll(all, {});
    ExpandIsSingles(conf, id, {});
    forall x ensures x in w.visited <==> Reaches(conf, id, x) {
      if x in w.visited {
        VisitedIsReachable(conf, id, {}, x);
      }
      if Reaches(conf, id, x) {
        var p :| IsPath(conf, p) && p[0] == id && p[|p| - 1] == x;
        ClosedKeepsPaths(conf, w.visited, p, |p| - 1);
      }
    }
  }
}
