/** What the compiled policy does: FreeRADIUS tries the rendered providers in order, with the return-code table of the
    templates, and the verdict is that of the full expansion. */
module GroupPolicy {
  import opened AuthGroups

  /** The return codes named in the templates. */
  datatype Code = Ok | Updated | Invalid | Fail | Reject | NotFound

  function Priority(c: Code): nat {
    match c
    case Invalid => 1
    case Fail => 2
    case Reject => 3
    case NotFound => 4
    case _ => 0
  }

  predicate Accepts(c: Code) {
    c.Ok? || c.Updated?
  }

  /** What has happened so far: some provider neither failed nor was invalid (ELAN-Non-Failed-Auth), the highest
      priority met, and the providers reported as failed. */
  datatype Progress = Progress(nonFailed: bool, priority: nat, failed: set<Id>)

  const START := Progress(false, 0, {})

  /** Either a provider accepted, which leaves the group at once, or all have been tried; then `allFailed` tells
      whether auth_all_providers_failed_in_group is reported. */
  datatype Verdict =
    | Accepted(provider: Id, code: Code, failed: set<Id>)
    | Exhausted(allFailed: bool, priority: nat, failed: set<Id>)

  function Max(a: nat, b: nat): nat {
    if a < b then b else a
  }

  /** One provider that did not accept, and the `if(fail) ... elsif(! invalid)` that follows it. */
  function Note(p: Progress, id: Id, code: Code): Progress {
    Progress(p.nonFailed || (!code.Fail? && !code.Invalid?),
             Max(p.priority, Priority(code)),
             if code.Fail? then p.failed + {id} else p.failed)
  }

  function Try(ids: seq<Id>, answers: Id -> Code, p: Progress): Verdict
    decreases |ids|
  {
    if ids == [] then Exhausted(!p.nonFailed, p.priority, p.failed)
    else if Accepts(answers(ids[0])) then Accepted(ids[0], answers(ids[0]), p.failed)
    else Try(ids[1..], answers, Note(p, ids[0], answers(ids[0])))
  }

  /** `p` already accounts for every provider in `seen`, none of which accepted. */
  ghost predicate Accounts(p: Progress, seen: set<Id>, answers: Id -> Code) {
    forall x :: x in seen ==> !Accepts(answers(x)) && Note(p, x, answers(x)) == p
  }

  lemma AccountsForMore(p: Progress, seen: set<Id>, answers: Id -> Code, id: Id)
    requires Accounts(p, seen, answers) && !Accepts(answers(id))
    ensures Accounts(Note(p, id, answers(id)), seen + {id}, answers)
  {
    var q := Note(p, id, answers(id));
    forall x | x in seen + {id} ensures !Accepts(answers(x)) && Note(q, x, answers(x)) == q {
      if x in seen {
        assert Note(p, x, answers(x)) == p;
        assert answers(x).Fail? ==> x in p.failed;
      }
    }
  }

  /** Trying a provider again that answers as before changes nothing. */
  lemma {:induction false} RepeatsDoNotMatter(ids: seq<Id>, answers: Id -> Code, p: Progress, seen: set<Id>)
    requires Accounts(p, seen, answers)
    ensures Try(FirstOccurrences(ids, seen), answers, p) == Try(ids, answers, p)
    decreases |ids|
  {
    if ids != [] {
      if ids[0] in seen {
        RepeatsDoNotMatter(ids[1..], answers, p, seen);
      } else if !Accepts(answers(ids[0])) {
        AccountsForMore(p, seen, answers, ids[0]);
        RepeatsDoNotMatter(ids[1..], answers, Note(p, ids[0], answers(ids[0])), seen + {ids[0]});
        var f := FirstOccurrences(ids, seen);
        assert f[1..] == FirstOccurrences(ids[1..], seen + {ids[0]});
      }
    }
  }

  /** The first accepting provider, the all-failed verdict, the final priority and the set of providers reported are
      those of trying every occurrence, for providers that answer consistently; cyclic groups included. */
  lemma PolicyIsExpansion(conf: Conf, id: Id, answers: Id -> Code)
    ensures Try(Compile(conf, id, {}).list, answers, START) == Try(Expand(conf, id, {}), answers, START)
  {
    CompileFlattens(conf, id, {}, {});
    RepeatsDoNotMatter(Expand(conf, id, {}), answers, START, {});
  }

  /** The provider at `i` is the first to return, after the `failed` ones. */
  ghost predicate AcceptsFirst(ids: seq<Id>, i: int, answers: Id -> Code, p: Progress, failed: set<Id>) {
    && 0 <= i < |ids| && (answers(ids[i]) == Ok || answers(ids[i]) == Updated)
    && (forall j :: 0 <= j < i ==> answers(ids[j]) != Ok && answers(ids[j]) != Updated)
    && forall y :: y in failed <==> y in p.failed || (y in ids[..i] && answers(y) == Fail)
  }

  /** Some provider answered `code`. */
  ghost predicate Met(ids: seq<Id>, answers: Id -> Code, code: Code) {
    exists x :: x in ids && answers(x) == code
  }

  /** The highest priority of the table that was met. */
  ghost predicate IsHighest(ids: seq<Id>, answers: Id -> Code, start: nat, priority: nat) {
    && start <= priority
    && (Met(ids, answers, Invalid) ==> 1 <= priority) && (Met(ids, answers, Fail) ==> 2 <= priority)
    && (Met(ids, answers, Reject) ==> 3 <= priority) && (Met(ids, answers, NotFound) ==> 4 <= priority)
    && (priority == start
        || (priority == 1 && Met(ids, answers, Invalid)) || (priority == 2 && Met(ids, answers, Fail))
        || (priority == 3 && Met(ids, answers, Reject)) || (priority == 4 && Met(ids, answers, NotFound)))
  }

  /** None returns; the priority is the highest met, and all failed means that each failed or was invalid. */
  ghost predicate NoneAccepts(ids: seq<Id>, answers: Id -> Code, p: Progress, v: Verdict)
    requires v.Exhausted?
  {
    && !Met(ids, answers, Ok) && !Met(ids, answers, Updated)
    && IsHighest(ids, answers, p.priority, v.priority)
    && (v.allFailed <==> !p.nonFailed && !Met(ids, answers, Reject) && !Met(ids, answers, NotFound))
    && forall y :: y in v.failed <==> y in p.failed || (y in ids && answers(y) == Fail)
  }

  /** What a verdict says about the providers that were tried after `p`. */
  ghost predicate Describes(v: Verdict, ids: seq<Id>, answers: Id -> Code, p: Progress) {
    match v
    case Accepted(x, code, failed) =>
      code == answers(x) && exists i :: AcceptsFirst(ids, i, answers, p, failed) && ids[i] == x
    case Exhausted(_, _, _) => NoneAccepts(ids, answers, p, v)
  }

  lemma AcceptsLater(ids: seq<Id>, i: int, answers: Id -> Code, p: Progress, failed: set<Id>)
    requires ids != [] && !Accepts(answers(ids[0]))
    requires AcceptsFirst(ids[1..], i, answers, Note(p, ids[0], answers(ids[0])), failed)
    ensures AcceptsFirst(ids, i + 1, answers, p, failed)
  {
    var first, rest := ids[0], ids[1..];
    assert ids == [first] + rest;
    assert forall x :: x in ids[..i + 1] <==> x == first || x in rest[..i];
  }

  lemma MetEarlier(ids: seq<Id>, answers: Id -> Code)
    requires ids != []
    ensures forall c :: Met(ids, answers, c) <==> answers(ids[0]) == c || Met(ids[1..], answers, c)
  {
    var first, rest := ids[0], ids[1..];
    assert ids == [first] + rest;
    assert first in ids;
    forall c ensures Met(ids, answers, c) <==> answers(first) == c || Met(rest, answers, c) {
      if Met(rest, answers, c) {
        var x :| x in rest && answers(x) == c;
        assert x in ids;
      }
    }
  }

  lemma NoneAcceptsEarlier(ids: seq<Id>, answers: Id -> Code, p: Progress, v: Verdict)
    requires v.Exhausted? && ids != [] && !Accepts(answers(ids[0]))
    requires NoneAccepts(ids[1..], answers, Note(p, ids[0], answers(ids[0])), v)
    ensures NoneAccepts(ids, answers, p, v)
  {
    MetEarlier(ids, answers);
    assert ids == [ids[0]] + ids[1..];
    hide Met;
  }

  lemma {:induction false} TryDescribes(ids: seq<Id>, answers: Id -> Code, p: Progress)
    ensures Describes(Try(ids, answers, p), ids, answers, p)
    decreases |ids|
  {
    if ids != [] {
      if Accepts(answers(ids[0])) {
        assert ids[..0] == [];
        assert AcceptsFirst(ids, 0, answers, p, p.failed);
      } else {
        var q, v := Note(p, ids[0], answers(ids[0])), Try(ids, answers, p);
        TryDescribes(ids[1..], answers, q);
        if v.Accepted? {
          hide AcceptsFirst;
          var i :| AcceptsFirst(ids[1..], i, answers, q, v.failed) && ids[1..][i] == v.provider;
          AcceptsLater(ids, i, answers, p, v.failed);
        } else {
          NoneAcceptsEarlier(ids, answers, p, v);
        }
      }
    }
  }

  /** A provider reachable from the group answers `code`. */
  ghost predicate Answers(conf: Conf, id: Id, answers: Id -> Code, code: Code) {
    exists x :: !IsGroup(conf, x) && Reaches(conf, id, x) && answers(x) == code
  }

  /** In terms of the configuration: the group accepts exactly when a reachable provider answers ok or updated, and then with
      one that does. Otherwise the priority is that of the highest code that a reachable one answers, and all failed is
      reported exactly when every reachable one answers fail or invalid. */
  lemma GroupVerdict(conf: Conf, id: Id, answers: Id -> Code)
    ensures var v := Try(Compile(conf, id, {}).list, answers, START);
            && (v.Accepted? <==> Answers(conf, id, answers, Ok) || Answers(conf, id, answers, Updated))
            && (v.Accepted? ==> !IsGroup(conf, v.provider) && Reaches(conf, id, v.provider) && v.code == answers(v.provider)
                                && (v.code == Ok || v.code == Updated))
            && (v.Exhausted? ==>
                  v.priority == if Answers(conf, id, answers, NotFound) then 4 else if Answers(conf, id, answers, Reject) then 3
                                else if Answers(conf, id, answers, Fail) then 2
                                else if Answers(conf, id, answers, Invalid) then 1 else 0)
            && (v.Exhausted? ==> (v.allFailed <==>
                  forall x :: !IsGroup(conf, x) && Reaches(conf, id, x) ==> answers(x) == Fail || answers(x) == Invalid))
            && (v.Exhausted? ==> forall x :: x in v.failed <==> !IsGroup(conf, x) && Reaches(conf, id, x) && answers(x) == Fail)
  {
    var list := Compile(conf, id, {}).list;
    var v := Try(list, answers, START);
    TryDescribes(list, answers, START);
    CompilesReachable(conf, id);
    hide Compile, Try, IsGroup, Reaches;
    forall c ensures Met(list, answers, c) <==> Answers(conf, id, answers, c) {
      MetIsAnswered(conf, id, answers, c);
    }
    if v.Accepted? {
      var i :| AcceptsFirst(list, i, answers, START, v.failed) && list[i] == v.provider;
      assert list[i] in list && Met(list, answers, v.code);
    } else {
      forall x | x in list ensures Met(list, answers, answers(x)) {
      }
    }
  }

  lemma MetIsAnswered(conf: Conf, id: Id, answers: Id -> Code, c: Code)
    ensures Met(Compile(conf, id, {}).list, answers, c) <==> Answers(conf, id, answers, c)
  {
    CompilesReachable(conf, id);
    hide Compile, IsGroup, Reaches;
  }

  // Acyclic groups: nothing is cut off.

  /** Every member of a group ranks below it. */
  ghost predicate Ranked(conf: Conf, rank: Id -> nat) {
    forall g, m :: g in conf && conf[g].Group? && m in conf[g].members ==> rank(m) < rank(g)
  }

  /** The plain expansion of acyclic groups, without any bookkeeping. */
  ghost function FullExpansion(conf: Conf, rank: Id -> nat, id: Id): seq<Id>
    requires Ranked(conf, rank)
    decreases rank(id), 1, 0
  {
    match Lookup(conf, id)
    case Single(_) => [id]
    case Group(members) => FullExpansions(conf, rank, members, rank(id))
  }

  ghost function FullExpansions(conf: Conf, rank: Id -> nat, ids: seq<Id>, below: nat): seq<Id>
    requires Ranked(conf, rank) && forall m :: m in ids ==> rank(m) < below
    decreases below, 0, |ids|
  {
    if ids == [] then []
    else FullExpansion(conf, rank, ids[0]) + FullExpansions(conf, rank, ids[1..], below)
  }

  lemma {:induction false} NothingIsCut(conf: Conf, rank: Id -> nat, id: Id, path: set<Id>)
    requires Ranked(conf, rank) && forall g :: g in path ==> rank(id) < rank(g)
    ensures Expand(conf, id, path) == FullExpansion(conf, rank, id)
    decreases rank(id), 1, 0
  {
    if IsGroup(conf, id) {
      NothingIsCutAll(conf, rank, Lookup(conf, id).members, path + {id}, rank(id));
    }
  }

  lemma {:induction false} NothingIsCutAll(conf: Conf, rank: Id -> nat, ids: seq<Id>, path: set<Id>, below: nat)
    requires Ranked(conf, rank) && (forall m :: m in ids ==> rank(m) < below) && forall g :: g in path ==> below <= rank(g)
    ensures ExpandAll(conf, ids, path) == FullExpansions(conf, rank, ids, below)
    decreases below, 0, |ids|
  {
    if ids != [] {
      NothingIsCut(conf, rank, ids[0], path);
      NothingIsCutAll(conf, rank, ids[1..], path, below);
    }
  }

  /** For acyclic groups the compiled policy is the full expansion with repeats. */
  lemma AcyclicPolicy(conf: Conf, rank: Id -> nat, id: Id, answers: Id -> Code)
    requires Ranked(conf, rank)
    ensures Compile(conf, id, {}).list == FirstOccurrences(FullExpansion(conf, rank, id), {})
    ensures Try(Compile(conf, id, {}).list, answers, START) == Try(FullExpansion(conf, rank, id), answers, START)
  {
    NothingIsCut(conf, rank, id, {});
    CompileFlattens(conf, id, {}, {});
    PolicyIsExpansion(conf, id, answers);
  }

  // The code.

  /** Every provider is rendered with the template of its declared type, as an external one if it is not declared. */
  lemma {:induction false} RenderedKinds(conf: Conf, ids: seq<Id>)
    requires forall x :: x in ids ==> !IsGroup(conf, x)
    ensures |Rendered(conf, ids)| == |ids|
    ensures forall i :: 0 <= i < |ids| ==>
              Rendered(conf, ids)[i] == Entry(ids[i], if ids[i] in conf && conf[ids[i]].Single? then conf[ids[i]].kind else External)
  {
    if ids != [] {
      var front := ids[..|ids| - 1];
      assert ids == front + [ids[|ids| - 1]];
      RenderedKinds(conf, front);
    }
  }

  /** A rendered provider. */
  datatype Entry = Entry(id: Id, kind: Kind)

  function Rendered(conf: Conf, ids: seq<Id>): seq<Entry> {
    if ids == [] then []
    else
      var last := ids[|ids| - 1];
      Rendered(conf, ids[..|ids| - 1]) + [Entry(last, match Lookup(conf, last) case Single(k) => k case _ => External)]
  }

  lemma {:induction false} RenderedConcat(conf: Conf, a: seq<Id>, b: seq<Id>)
    ensures Rendered(conf, a + b) == Rendered(conf, a) + Rendered(conf, b)
  {
    if b == [] {
      assert a + b == a;
    } else {
      assert (a + b)[..|a + b| - 1] == a + b[..|b| - 1];
      RenderedConcat(conf, a, b[..|b| - 1]);
    }
  }

  /** The set `ignore_authentications`, shared by all the calls of one compilation. */
  class Ignored {
    var ids: set<Id>

    constructor ()
      ensures ids == {}
    {
      ids := {};
    }
  }

  lemma {:induction false} CompileAllSnoc(conf: Conf, ids: seq<Id>, id: Id, visited: set<Id>)
    ensures var front := CompileAll(conf, ids, visited); var last := Compile(conf, id, front.visited);
            CompileAll(conf, ids + [id], visited) == Walk(front.list + last.list, last.visited)
    decreases |ids|
  {
    if ids != [] {
      assert (ids + [id])[1..] == ids[1..] + [id];
      CompileAllSnoc(conf, ids[1..], id, Compile(conf, ids[0], visited).visited);
    }
  }

  lemma MembersStep(conf: Conf, members: seq<Id>, i: nat, visited: set<Id>)
    requires i < |members|
    ensures var front := CompileAll(conf, members[..i], visited);
            var last := Compile(conf, members[i], front.visited);
            var next := CompileAll(conf, members[..i + 1], visited);
            && |conf.Keys - front.visited| <= |conf.Keys - visited|
            && next.visited == last.visited
            && Rendered(conf, next.list) == Rendered(conf, front.list) + Rendered(conf, last.list)
  {
    assert members[..i + 1] == members[..i] + [members[i]];
    var front := CompileAll(conf, members[..i], visited);
    Grows(conf, visited, front.visited);
    CompileAllSnoc(conf, members[..i], members[i], visited);
    RenderedConcat(conf, front.list, Compile(conf, members[i], front.visited).list);
  }

  /** The loop over the members of a group. */
  method MembersCase(conf: Conf, members: seq<Id>, ignored: Ignored) returns (innerCase: seq<Entry>)
    modifies ignored
    ensures innerCase == Rendered(conf, CompileAll(conf, members, old(ignored.ids)).list)
    ensures ignored.ids == CompileAll(conf, members, old(ignored.ids)).visited
    decreases |conf.Keys - ignored.ids|, 1
  {
    innerCase := [];
    ghost var visited := ignored.ids;
    for i := 0 to |members|
      invariant ignored.ids == CompileAll(conf, members[..i], visited).visited
      invariant innerCase == Rendered(conf, CompileAll(conf, members[..i], visited).list)
    {
      MembersStep(conf, members, i, visited);
      var part := GetGroupInnerCase(conf, members[i], ignored);
      innerCase := innerCase + part;
    }
    assert members[..|members|] == members;
  }

  /** `get_group_inner_case`. */
  method GetGroupInnerCase(conf: Conf, id: Id, ignored: Ignored) returns (innerCase: seq<Entry>)
    modifies ignored
    ensures innerCase == Rendered(conf, Compile(conf, id, old(ignored.ids)).list)
    ensures ignored.ids == Compile(conf, id, old(ignored.ids)).visited
    decreases |conf.Keys - ignored.ids|, 0
  {
    if id in ignored.ids {
      return [];
    }
    match Lookup(conf, id) {
      case Single(kind) =>
        ignored.ids := ignored.ids + {id};
        innerCase := [Entry(id, kind)];
        RenderedOne(conf, id);
      case Group(members) =>
        Shrinks(conf, id, ignored.ids);
        ignored.ids := ignored.ids + {id};
        innerCase := MembersCase(conf, members, ignored);
    }
  }

  /** The group branch of `apply_conf`: the rendered group is the list whose properties are proved above. */
  method GroupCase(conf: Conf, id: Id) returns (innerCase: seq<Entry>)
    ensures innerCase == Rendered(conf, Compile(conf, id, {}).list)
    ensures forall x :: (exists i :: 0 <= i < |innerCase| && innerCase[i].id == x) <==> !IsGroup(conf, x) && Reaches(conf, id, x)
    ensures forall i, j :: 0 <= i < j < |innerCase| ==> innerCase[i].id != innerCase[j].id
    ensures forall i :: 0 <= i < |innerCase| ==>
              innerCase[i].kind == if innerCase[i].id in conf && conf[innerCase[i].id].Single? then conf[innerCase[i].id].kind
                                   else External
  {
    var ignored := new Ignored();
    innerCase := GetGroupInnerCase(conf, id, ignored);
    ghost var list := Compile(conf, id, {}).list;
    CompilesReachable(conf, id);
    RenderedKinds(conf, list);
    hide Compile, Rendered, IsGroup, Reaches;
    forall x ensures (exists i :: 0 <= i < |innerCase| && innerCase[i].id == x) <==> x in list {
      if x in list {
        var i :| 0 <= i < |list| && list[i] == x;
        assert innerCase[i].id == x;
      }
    }
  }

  lemma RenderedOne(conf: Conf, id: Id)
    ensures Rendered(conf, [id]) == [Entry(id, match Lookup(conf, id) case Single(k) => k case _ => External)]
  {
    assert [id][..0] == [];
  }
}
