/** The tracker's loop over time: sightings and other ends may happen while it sleeps; sleeps are exact and checks
    take no time. */
module TrackerRuns {
  import opened Common
  import opened Sessions
  import opened Tracker

  ghost predicate IsOldest(lastSeen: map<Key, Time>, t: Time) {
    && (exists k :: k in lastSeen && lastSeen[k] == t)
    && (forall k :: k in lastSeen ==> t <= lastSeen[k])
  }

  lemma {:induction false} OldestExists(lastSeen: map<Key, Time>)
    requires lastSeen != map[]
    ensures exists t :: IsOldest(lastSeen, t)
    decreases |lastSeen|
  {
    var k :| k in lastSeen;
    var rest := lastSeen - {k};
    assert lastSeen.Keys == rest.Keys + {k};
    if rest == map[] {
      assert lastSeen.Keys == {k};
      assert IsOldest(lastSeen, lastSeen[k]);
    } else {
      OldestExists(rest);
      var t :| IsOldest(rest, t);
      var j :| j in rest && rest[j] == t;
      assert lastSeen[j] == t;
      assert IsOldest(lastSeen, if t <= lastSeen[k] then t else lastSeen[k]);
    }
  }

  /** The first score of the last-seen sorted set. */
  ghost function Oldest(lastSeen: map<Key, Time>): (r: Option<Time>)
    ensures r.None? <==> lastSeen == map[]
    ensures r.Some? ==> IsOldest(lastSeen, r.value)
  {
    if lastSeen == map[] then None
    else
      OldestExists(lastSeen);
      var t :| IsOldest(lastSeen, t);
      Some(t)
  }

  /** `checkedAt` is the time of the last check, `wake` that of the next one, `latest` the last sighting's time. */
  datatype Timed = Timed(s: State, now: Time, checkedAt: Time, wake: Time, latest: Time)

  datatype Step =
    | Sight(sighting: Sighting)
    | EndElsewhere(root: Key, time: Time)
    | Pass(until: Time)
    | Check(order: seq<Key>)

  /** Sightings come in time order, but a sighting may be reported long after its time. */
  ghost predicate Enabled(w: Timed, step: Step) {
    match step
    case Sight(g) => w.latest <= g.time <= w.now
    case EndElsewhere(_, _) => true
    case Pass(until) => w.now <= until <= w.wake
    case Check(order) => w.now == w.wake && IsCheckOrder(w.s, w.now - EXPIRY_OBJECT_AFTER, order)
  }

  /** One turn of the loop of `run`: check, then compute the next sleep. */
  ghost function Checked(s: State, now: Time, latest: Time, order: seq<Key>): Timed
    requires Forest(s) && forall k :: k in order ==> k in s.lastSeen
  {
    var s' := EndedAll(s, order, s.lastSeen);
    Timed(s', now, now, now + Wait(Oldest(s'.lastSeen), now) as real, latest)
  }

  ghost predicate Ticks(w: Timed, step: Step, w': Timed) {
    && Forest(w.s) && Enabled(w, step)
    && match step
       case Sight(g) => w' == w.(s := Seen(w.s, g, w.now), latest := g.time)
       case EndElsewhere(root, time) => w' == w.(s := Ended(w.s, root, time))
       case Pass(until) => w' == w.(now := until)
       case Check(order) =>
         && (forall k :: k in order ==> k in w.s.lastSeen)
         && w' == Checked(w.s, w.now, w.latest, order)
  }

  /** The daemon starts with a check, on whatever store it finds. */
  ghost predicate Starts(w: Timed) {
    exists s, order ::
      && Forest(s) && Ordered(s) && SeenBy(s, w.latest) && w.latest <= w.now
      && IsCheckOrder(s, w.now - EXPIRY_OBJECT_AFTER, order)
      && (forall k :: k in order ==> k in s.lastSeen)
      && w == Checked(s, w.now, w.latest, order)
  }

  ghost predicate IsRun(ws: seq<Timed>, steps: seq<Step>) {
    && |ws| == |steps| + 1 && Starts(ws[0])
    && forall i :: 0 <= i < |steps| ==> Ticks(ws[i], steps[i], ws[i + 1])
  }

  /** What holds in every state: the next check is near, and either a session was seen recently enough for it, or the last
      check left nothing at all. */
  ghost predicate TimedOk(w: Timed) {
    && Forest(w.s) && Ordered(w.s) && SeenBy(w.s, w.latest)
    && w.latest <= w.now && w.checkedAt <= w.now <= w.wake <= w.checkedAt + 241.0
    && (w.wake < w.latest + 310.0 || w.wake == w.checkedAt + 240.0)
  }

  /** At the next check no session will have been silent for 310 seconds. */
  ghost predicate Bounded(w: Timed) {
    forall k :: k in w.s.lastSeen ==> w.wake < w.s.lastSeen[k] + 310.0
  }

  /** A check re-establishes the bound for every session it leaves, and wakes at least a second later. */
  lemma CheckedOk(s: State, now: Time, latest: Time, order: seq<Key>)
    requires Forest(s) && Ordered(s) && SeenBy(s, latest) && latest <= now
    requires IsCheckOrder(s, now - EXPIRY_OBJECT_AFTER, order) && forall k :: k in order ==> k in s.lastSeen
    ensures var w := Checked(s, now, latest, order); TimedOk(w) && Bounded(w) && w.wake >= now + 1.0
    ensures forall k :: k in s.lastSeen && k !in Checked(s, now, latest, order).s.lastSeen ==>
              s.lastSeen[k] <= now - 300.0
  {
    CheckOutcome(s, now - EXPIRY_OBJECT_AFTER, order);
    var w := Checked(s, now, latest, order);
    var oldest := Oldest(w.s.lastSeen);
    WaitBounds(oldest, now);
    if oldest.Some? {
      var k :| k in w.s.lastSeen && w.s.lastSeen[k] == oldest.value;
      assert oldest.value <= latest && oldest.value > now - 300.0;
    }
  }

  lemma TickKeeps(w: Timed, step: Step, w': Timed)
    requires TimedOk(w) && Ticks(w, step, w')
    ensures TimedOk(w')
  {
    match step {
      case Sight(g) =>
        SeenKeepsForest(w.s, g, w.now);
        SeenKeepsOrder(w.s, g, w.now);
      case EndElsewhere(root, time) =>
        EndedKeepsForest(w.s, root, time);
        EndedKeepsOrder(w.s, root, time);
      case Pass(until) =>
      case Check(order) =>
        CheckedOk(w.s, w.now, w.latest, order);
    }
  }

  lemma {:induction false} RunsAreOk(ws: seq<Timed>, steps: seq<Step>, i: nat)
    requires IsRun(ws, steps) && i < |ws|
    ensures TimedOk(ws[i])
  {
    hide TimedOk, Ticks, Checked;
    if i == 0 {
      StartIsBounded(ws[0]);
    } else {
      RunsAreOk(ws, steps, i - 1);
      TickKeeps(ws[i - 1], steps[i - 1], ws[i]);
    }
  }

  lemma StartIsBounded(w: Timed)
    requires Starts(w)
    ensures TimedOk(w) && Bounded(w)
  {
    hide TimedOk, Bounded, Checked;
    var s, order :| Forest(s) && Ordered(s) && SeenBy(s, w.latest) && w.latest <= w.now
      && IsCheckOrder(s, w.now - EXPIRY_OBJECT_AFTER, order)
      && (forall k :: k in order ==> k in s.lastSeen) && w == Checked(s, w.now, w.latest, order);
    CheckedOk(s, w.now, w.latest, order);
  }

  // The 310 seconds.

  /** What a late sighting needs: that a session is about which keeps the next check near enough, or that it is not much
      older than the last check. */
  predicate InTime(w: Timed, g: Sighting) {
    w.wake < w.latest + 310.0 || g.time > w.checkedAt - 70.0
  }

  /** A sighting keeps the bound if and only if it is in time. */
  lemma SightKeepsBoundIff(w: Timed, g: Sighting)
    requires TimedOk(w) && Bounded(w) && Enabled(w, Sight(g))
    ensures Bounded(w.(s := Seen(w.s, g, w.now), latest := g.time)) <==> InTime(w, g)
  {
    var w' := w.(s := Seen(w.s, g, w.now), latest := g.time);
    SeenKeepsOrder(w.s, g, w.now);
    SightIsRecorded(w.s, g, w.now);
    hide Seen, Forest, Ordered, Touched;
    if Bounded(w') {
      assert w'.s.lastSeen[MacKey(g.mac)] == g.time;
    }
  }

  lemma SightIsRecorded(s: State, g: Sighting, now: Time)
    requires Forest(s)
    ensures MacKey(g.mac) in Seen(s, g, now).lastSeen && Seen(s, g, now).lastSeen[MacKey(g.mac)] == g.time
  {
    SeenKeepsForest(s, g, now);
    hide NewNotes, PortNotes, Ended, Forest;
  }

  /** Nothing else can break it. */
  lemma OthersKeepBound(w: Timed, step: Step, w': Timed)
    requires TimedOk(w) && Bounded(w) && Ticks(w, step, w') && !step.Sight?
    ensures Bounded(w')
  {
    match step {
      case EndElsewhere(root, time) => EndedKeepsForest(w.s, root, time);
      case Pass(_) =>
      case Check(order) => CheckedOk(w.s, w.now, w.latest, order);
    }
  }

  predicate SightsInTime(w: Timed, step: Step) {
    step.Sight? ==> InTime(w, step.sighting)
  }

  lemma {:induction false} BoundIsKept(ws: seq<Timed>, steps: seq<Step>, i: nat)
    requires IsRun(ws, steps) && i < |ws| && forall j :: 0 <= j < i ==> SightsInTime(ws[j], steps[j])
    ensures Bounded(ws[i])
  {
    hide TimedOk, Bounded, Starts, InTime;
    if i == 0 {
      StartIsBounded(ws[0]);
    } else {
      var w, step := ws[i - 1], steps[i - 1];
      BoundIsKept(ws, steps, i - 1);
      RunsAreOk(ws, steps, i - 1);
      assert Ticks(w, step, ws[i]) && SightsInTime(w, step);
      if step.Sight? {
        SightKeepsBoundIff(w, step.sighting);
      } else {
        OthersKeepBound(w, step, ws[i]);
      }
    }
  }

  /** In every state of a run, no session will be silent for 310 seconds before it is ended, if and only if every
      sighting of the run is in time. */
  lemma BoundHoldsIff(ws: seq<Timed>, steps: seq<Step>)
    requires IsRun(ws, steps)
    ensures (forall i :: 0 <= i < |ws| ==> Bounded(ws[i]))
       <==> (forall i :: 0 <= i < |steps| ==> SightsInTime(ws[i], steps[i]))
  {
    hide TimedOk, Bounded, Starts, InTime;
    if forall i :: 0 <= i < |steps| ==> SightsInTime(ws[i], steps[i]) {
      forall i | 0 <= i < |ws| ensures Bounded(ws[i]) {
        BoundIsKept(ws, steps, i);
      }
    }
    if forall i :: 0 <= i < |ws| ==> Bounded(ws[i]) {
      forall i | 0 <= i < |steps| ensures SightsInTime(ws[i], steps[i]) {
        RunsAreOk(ws, steps, i);
        assert Ticks(ws[i], steps[i], ws[i + 1]) && Bounded(ws[i]) && Bounded(ws[i + 1]);
        if steps[i].Sight? {
          SightKeepsBoundIff(ws[i], steps[i].sighting);
        }
      }
    }
  }

  /** In every state of every run whose sightings were in time, every session still open was seen less than 310 seconds
      ago. */
  lemma SilentSessionsEndInTime(ws: seq<Timed>, steps: seq<Step>, i: nat, k: Key)
    requires IsRun(ws, steps) && i < |ws| && k in ws[i].s.lastSeen
    requires forall j :: 0 <= j < i ==> SightsInTime(ws[j], steps[j])
    ensures ws[i].now < ws[i].s.lastSeen[k] + 310.0
  {
    RunsAreOk(ws, steps, i);
    BoundIsKept(ws, steps, i);
  }

  /** A daemon that finds nothing. */
  lemma StartsIdle(c: Time, latest: Time) returns (w: Timed)
    requires latest <= c
    ensures Starts(w) && w == Timed(EMPTY, c, c, c + 240.0, latest)
  {
    w := Checked(EMPTY, c, latest, []);
    assert Oldest(EMPTY.lastSeen) == None;
    assert IsCheckOrder(EMPTY, c - EXPIRY_OBJECT_AFTER, []);
  }

  /** Time order alone is not enough: a check at `c` finds nothing and sleeps for 240 seconds; a sighting that is already
      100 seconds old makes a session that is 340 seconds old when the next check begins. */
  lemma LateSightingBreaksBound(mac: Mac, c: Time) returns (ws: seq<Timed>, steps: seq<Step>)
    ensures IsRun(ws, steps) && |ws| == 3 && steps[0] == Sight(Sighting(mac, None, None, None, c - 100.0))
    ensures ws[2].now == ws[2].wake
    ensures MacKey(mac) in ws[2].s.lastSeen && ws[2].now == ws[2].s.lastSeen[MacKey(mac)] + 340.0
  {
    hide Seen, Starts, Forest;
    var g := Sighting(mac, None, None, None, c - 100.0);
    var w0 := StartsIdle(c, c - 100.0);
    StartIsBounded(w0);
    SightIsRecorded(EMPTY, g, c);
    SeenKeepsForest(EMPTY, g, c);
    var w1 := w0.(s := Seen(EMPTY, g, c), latest := g.time);
    var w2 := w1.(now := c + 240.0);
    ws, steps := [w0, w1, w2], [Sight(g), Pass(c + 240.0)];
    assert Ticks(w0, steps[0], w1) && Ticks(w1, steps[1], w2);
  }

  lemma CheckIsPatient(w: Timed, order: seq<Key>, k: Key)
    requires TimedOk(w) && IsCheckOrder(w.s, w.now - EXPIRY_OBJECT_AFTER, order)
    requires k in w.s.lastSeen && forall j :: j in order ==> j in w.s.lastSeen
    ensures var w' := Checked(w.s, w.now, w.latest, order);
            && (k in w'.s.lastSeen <==> w.now < w.s.lastSeen[k] + 300.0) && w'.wake >= w.now + 1.0
  {
    CheckOutcome(w.s, w.now - EXPIRY_OBJECT_AFTER, order);
    CheckedOk(w.s, w.now, w.latest, order);
  }

  /** In every run, however late the sightings: a check ends exactly the sessions not seen for 300 seconds, and the next
      check is at least a second away. */
  lemma ChecksArePatient(ws: seq<Timed>, steps: seq<Step>, i: nat, k: Key)
    requires IsRun(ws, steps) && i < |steps| && steps[i].Check? && k in ws[i].s.lastSeen
    ensures k in ws[i + 1].s.lastSeen <==> ws[i].now < ws[i].s.lastSeen[k] + 300.0
    ensures ws[i + 1].wake >= ws[i].now + 1.0
  {
    assert Ticks(ws[i], steps[i], ws[i + 1]);
    hide IsRun, TimedOk, Checked, IsCheckOrder, Forest;
    RunsAreOk(ws, steps, i);
    CheckIsPatient(ws[i], steps[i].order, k);
  }

  /** Every enabled step can be taken. */
  lemma StepIsFree(w: Timed, step: Step) returns (w': Timed)
    requires TimedOk(w) && Enabled(w, step)
    ensures Ticks(w, step, w')
  {
    hide Seen, Ended, Forest, Ordered;
    match step {
      case Sight(g) => w' := w.(s := Seen(w.s, g, w.now), latest := g.time);
      case EndElsewhere(root, time) => w' := w.(s := Ended(w.s, root, time));
      case Pass(until) => w' := w.(now := until);
      case Check(order) =>
        forall k | k in order ensures k in w.s.lastSeen {
          assert IsRoot(w.s, k, w.now - EXPIRY_OBJECT_AFTER);
        }
        w' := Checked(w.s, w.now, w.latest, order);
    }
  }

  lemma Extended(ws: seq<Timed>, steps: seq<Step>, step: Step, w': Timed)
    requires IsRun(ws, steps) && Ticks(ws[|steps|], step, w')
    ensures IsRun(ws + [w'], steps + [step])
  {
    hide Ticks, Starts;
    var ws', steps' := ws + [w'], steps + [step];
    forall i | 0 <= i < |steps'| ensures Ticks(ws'[i], steps'[i], ws'[i + 1]) {
      if i < |steps| {
        assert ws'[i] == ws[i] && steps'[i] == steps[i] && ws'[i + 1] == ws[i + 1];
      }
    }
  }

  /** The conditions in the definition of a run exclude nothing: whatever step is enabled after a run extends it. */
  lemma RunsExtend(ws: seq<Timed>, steps: seq<Step>, step: Step) returns (w': Timed)
    requires IsRun(ws, steps) && Enabled(ws[|steps|], step)
    ensures Ticks(ws[|steps|], step, w') && IsRun(ws + [w'], steps + [step])
  {
    assert |ws| == |steps| + 1;
    hide IsRun, TimedOk, Ticks, Enabled;
    RunsAreOk(ws, steps, |steps|);
    w' := StepIsFree(ws[|steps|], step);
    Extended(ws, steps, step, w');
  }

  /** Some session has not been seen for 310 seconds. */
  ghost predicate TooSilent(w: Timed) {
    exists k :: k in w.s.lastSeen && w.now >= w.s.lastSeen[k] + 310.0
  }

  /** What the bound means after any run: it holds if and only if no session gets too silent while nothing but time passes up
      to the next check. */
  lemma BoundedMeansSilence(ws: seq<Timed>, steps: seq<Step>)
    requires IsRun(ws, steps)
    ensures var w := ws[|steps|];
            Bounded(w) <==> forall until :: w.now <= until <= w.wake ==> !TooSilent(w.(now := until))
    ensures var w := ws[|steps|];
            forall until :: w.now <= until <= w.wake ==> IsRun(ws + [w.(now := until)], steps + [Pass(until)])
  {
    var w := ws[|steps|];
    RunsAreOk(ws, steps, |steps|);
    hide IsRun, Forest, Ordered, SeenBy;
    if !Bounded(w) {
      assert TooSilent(w.(now := w.wake));
    }
    forall until | w.now <= until <= w.wake ensures IsRun(ws + [w.(now := until)], steps + [Pass(until)]) {
      var w' := RunsExtend(ws, steps, Pass(until));
    }
  }

  /** Without the bound, letting time pass makes a session too silent. */
  lemma PassesTooLong(ws: seq<Timed>, steps: seq<Step>) returns (w': Timed)
    requires IsRun(ws, steps) && !Bounded(ws[|steps|])
    ensures IsRun(ws + [w'], steps + [Pass(ws[|steps|].wake)])
    ensures TooSilent(w') && w'.now == w'.wake
  {
    var w := ws[|steps|];
    BoundedMeansSilence(ws, steps);
    RunsAreOk(ws, steps, |steps|);
    hide IsRun, Forest, Ordered, SeenBy;
    w' := w.(now := w.wake);
    var k :| k in w.s.lastSeen && w.wake >= w.s.lastSeen[k] + 310.0;
    assert k in w'.s.lastSeen;
  }

  /** A sighting that is not in time does harm after every run that kept the bound: if nothing but time passes after it, the
      session is too silent when the next check begins. */
  lemma LateSightingIsTooSilent(ws: seq<Timed>, steps: seq<Step>, g: Sighting) returns (w1: Timed, w2: Timed)
    requires IsRun(ws, steps) && Bounded(ws[|steps|]) && Enabled(ws[|steps|], Sight(g)) && !InTime(ws[|steps|], g)
    ensures IsRun(ws + [w1] + [w2], steps + [Sight(g)] + [Pass(w1.wake)])
    ensures TooSilent(w2) && w2.now == w2.wake
  {
    assert |ws| == |steps| + 1;
    var w := ws[|steps|];
    RunsAreOk(ws, steps, |steps|);
    w1 := w.(s := Seen(w.s, g, w.now), latest := g.time);
    SightKeepsBoundIff(w, g);
    assert Ticks(w, Sight(g), w1);
    Extended(ws, steps, Sight(g), w1);
    hide IsRun, Bounded, InTime, TooSilent, Enabled, TimedOk, Ticks;
    var ws1, steps1 := ws + [w1], steps + [Sight(g)];
    assert ws1[|steps1|] == w1;
    w2 := PassesTooLong(ws1, steps1);
  }
}
