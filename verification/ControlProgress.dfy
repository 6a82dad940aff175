/** What runs of the device log and report, and that whatever runs can always come to its end. */
module ControlProgress {
  import opened Basics
  import opened KoboDevice
  import opened Control
  import opened ControlRuns

  // ------------------------------------------------------------ what is shown

  /** Every request made by the exchanges committed since the last reset, oldest first. */
  function MadeSince(steps: seq<Step>): seq<string> {
    if steps == [] then []
    else
      var before := MadeSince(steps[..|steps| - 1]);
      match steps[|steps| - 1]
      case EndExchange(_, _, made, _) => before + made
      case StartReset(_, _) => []
      case _ => before
  }

  /** What the last exchange to report anything since the last reset reported, refused ones included. */
  function ReportedSince(steps: seq<Step>): Option<LastSync> {
    if steps == [] then None
    else
      var before := ReportedSince(steps[..|steps| - 1]);
      match steps[|steps| - 1]
      case EndExchange(_, _, _, done) => if done.Some? then done else before
      case NoteRefusal(_, done) => if done.Some? then done else before
      case StartReset(_, _) => None
      case _ => before
  }

  lemma StepShows(w: World, s: Step)
    requires Enabled(w, s)
    ensures Do(w, s).live.requests
            == if s.EndExchange? then w.live.requests + s.made else if s.StartReset? then [] else w.live.requests
    ensures Do(w, s).live.lastSync
            == if (s.EndExchange? || s.NoteRefusal?) && s.done.Some? then s.done else if s.StartReset? then None else w.live.lastSync
  {}

  /** In every interleaving, the request log and the last sync's result are those of the exchanges since the last reset. */
  lemma {:induction false} ShowsWhatRan(a: Start, steps: seq<Step>)
    requires Possible(FirstWorld(a), steps)
    ensures After(FirstWorld(a), steps).live.requests == MadeSince(steps)
    ensures After(FirstWorld(a), steps).live.lastSync == ReportedSince(steps)
  {
    if steps != [] {
      var init := steps[..|steps| - 1];
      ShowsWhatRan(a, init);
      StepShows(After(FirstWorld(a), init), steps[|steps| - 1]);
    }
  }

  /** A caller that asks to wait does, and goes only on finding the device idle. */
  lemma WaitsForIdle(w: World, s: Step, i: Id)
    requires Enabled(w, s)
    ensures s == Register(i) ==> At(Do(w, s), i) && Do(w, s).tasks[i] == Waiting(false, false)
    ensures At(w, i) && w.tasks[i].Waiting? ==>
              if At(Do(w, s), i) then Do(w, s).tasks[i].Waiting? else s == Check(i) && !w.live.syncing
  {}

  // ------------------------------------------------------ exchanges come to an end

  lemma {:induction false} RunConcat(w: World, a: seq<Step>, b: seq<Step>)
    requires Possible(w, a) && Possible(After(w, a), b)
    ensures Possible(w, a + b) && After(w, a + b) == After(After(w, a), b)
    decreases |b|
  {
    if b == [] {
      assert a + b == a;
    } else {
      var init, last := b[..|b| - 1], b[|b| - 1];
      RunConcat(w, a, init);
      LastApart(a, b);
      OneMore(w, a + init, last, a + b);
      OneMore(After(w, a), init, last, b);
    }
  }

  lemma LastApart<T>(a: seq<T>, b: seq<T>)
    requires b != []
    ensures b == b[..|b| - 1] + [b[|b| - 1]] && a + b == (a + b[..|b| - 1]) + [b[|b| - 1]]
  {}

  lemma OneStep(w: World, s: Step)
    requires Enabled(w, s)
    ensures Possible(w, [s]) && After(w, [s]) == Do(w, s)
  {
    NoSteps(w);
    OneMore(w, [], s, [s]);
  }

  /** A step that starts nothing: some task goes on with what it has begun. */
  predicate GoesOn(s: Step) {
    !(s.StartExchange? || s.RefuseExchange? || s.StartReset? || s.StartRemove? || s.StartRetarget? || s.Register?)
  }

  predicate AllGoOn(way: seq<Step>) {
    forall k :: 0 <= k < |way| ==> GoesOn(way[k])
  }

  /** Steps that start nothing lead from `w` to `v`, and task `id` has come to `t`. */
  ghost predicate Leads(w: World, way: seq<Step>, id: Id, t: Task) {
    AllGoOn(way) && Possible(w, way) && Inv(After(w, way)) && At(After(w, way), id) && After(w, way).tasks[id] == t
  }

  lemma Onward(w: World, s: Step)
    requires Inv(w) && Enabled(w, s) && GoesOn(s) && TaskAfter(w, s).Some? && !s.Notify?
    ensures Leads(w, [s], s.id, TaskAfter(w, s).value)
  {
    OneStep(w, s);
    StepKeeps(w, s);
  }

  lemma Then(w: World, a: seq<Step>, id: Id, t: Task, b: seq<Step>, u: Task)
    requires Leads(w, a, id, t) && Leads(After(w, a), b, id, u)
    ensures Leads(w, a + b, id, u)
  {
    RunConcat(w, a, b);
  }

  /** A task with its save written goes on to release its guard. */
  lemma FromWriting(w: World, id: Id) returns (way: seq<Step>)
    requires Inv(w) && At(w, id) && w.tasks[id].Writing? && w.tasks[id].guarded
    ensures Leads(w, way, id, Releasing)
  {
    way := [EndWrite(id, true, true)];
    Onward(w, way[0]);
  }

  lemma FromSnapshotting(w: World, id: Id) returns (way: seq<Step>)
    requires Inv(w) && At(w, id) && w.tasks[id].Snapshotting? && w.tasks[id].guarded
    ensures Leads(w, way, id, Releasing)
  {
    var s := Snapshot(id);
    Onward(w, s);
    var rest := FromWriting(After(w, [s]), id);
    Then(w, [s], id, TaskAfter(w, s).value, rest, Releasing);
    way := [s] + rest;
  }

  lemma SaverWrites(w: World, id: Id, k: Id) returns (way: seq<Step>)
    requires Inv(w) && At(w, id) && k != id && At(w, k) && w.tasks[k].Snapshotting?
    ensures Leads(w, way, id, w.tasks[id]) && At(After(w, way), k) && After(w, way).tasks[k].Writing?
  {
    var s := Snapshot(k);
    way := [s];
    Onward(w, s);
    OneStep(w, s);
    StepTouches(w, s);
  }

  lemma SaverEnds(w: World, id: Id, k: Id) returns (way: seq<Step>)
    requires Inv(w) && At(w, id) && k != id && At(w, k) && w.tasks[k].Writing?
    ensures Leads(w, way, id, w.tasks[id]) && After(w, way).saveLock.None?
  {
    var s := EndWrite(k, true, true);
    way := [s];
    OneStep(w, s);
    StepKeeps(w, s);
    StepTouches(w, s);
  }

  /** Whoever holds the save lock can let go of it, and task `id`, which does not, stays where it is. */
  lemma SaverLeaves(w: World, id: Id) returns (way: seq<Step>)
    requires Inv(w) && At(w, id) && w.saveLock != Some(id)
    ensures Leads(w, way, id, w.tasks[id]) && After(w, way).saveLock.None?
  {
    way := [];
    NoSteps(w);
    if w.saveLock.Some? {
      var k := w.saveLock.value;
      if w.tasks[k].Snapshotting? {
        way := SaverWrites(w, id, k);
      }
      var rest := SaverEnds(After(w, way), id, k);
      RunConcat(w, way, rest);
      Then(w, way, id, w.tasks[id], rest, w.tasks[id]);
      way := way + rest;
    }
  }

  lemma FromAwaiting(w: World, id: Id) returns (way: seq<Step>)
    requires Inv(w) && At(w, id) && w.tasks[id].AwaitingSave? && w.tasks[id].guarded
    ensures Leads(w, way, id, Releasing)
  {
    var first := SaverLeaves(w, id);
    var w1 := After(w, first);
    var s := LockSave(id);
    Onward(w1, s);
    var rest := FromSnapshotting(After(w1, [s]), id);
    Then(w1, [s], id, TaskAfter(w1, s).value, rest, Releasing);
    Then(w, first, id, w.tasks[id], [s] + rest, Releasing);
    way := first + ([s] + rest);
  }

  /** An exchange still with its server can end, and a directory still being cleared be cleared. */
  function EndOfWork(w: World, id: Id): Step
    requires At(w, id) && (w.tasks[id].Exchanging? || w.tasks[id].Clearing?)
  {
    if w.tasks[id].Exchanging? then EndExchange(id, w.tasks[id].device, [], None) else Cleared(id, true)
  }

  lemma FromWork(w: World, id: Id) returns (way: seq<Step>)
    requires Inv(w) && At(w, id) && (w.tasks[id].Exchanging? || w.tasks[id].Clearing?)
    ensures Leads(w, way, id, Releasing)
  {
    var s := EndOfWork(w, id);
    Onward(w, s);
    var rest := FromAwaiting(After(w, [s]), id);
    Then(w, [s], id, TaskAfter(w, s).value, rest, Releasing);
    way := [s] + rest;
  }

  lemma FromAnywhere(w: World, id: Id) returns (way: seq<Step>)
    requires Inv(w) && At(w, id) && Guards(w.tasks[id])
    ensures Leads(w, way, id, Releasing)
  {
    if w.tasks[id].Releasing? {
      way := [];
      NoSteps(w);
    } else if w.tasks[id].Writing? {
      way := FromWriting(w, id);
    } else if w.tasks[id].Snapshotting? {
      way := FromSnapshotting(w, id);
    } else if w.tasks[id].AwaitingSave? {
      way := FromAwaiting(w, id);
    } else {
      way := FromWork(w, id);
    }
  }

  lemma ReleaseIdles(w: World, id: Id)
    requires At(w, id) && w.tasks[id].Releasing?
    ensures Possible(w, [Release(id)]) && !After(w, [Release(id)]).live.syncing
  {
    OneStep(w, Release(id));
  }

  lemma GuardIdles(w: World, id: Id) returns (way: seq<Step>)
    requires Inv(w) && At(w, id) && Guards(w.tasks[id])
    ensures AllGoOn(way) && Possible(w, way) && !After(w, way).live.syncing
  {
    var first := FromAnywhere(w, id);
    ReleaseIdles(After(w, first), id);
    RunConcat(w, first, [Release(id)]);
    way := first + [Release(id)];
  }

  /**
   * From every state any run can reach, whatever is running can end, by steps that start nothing new, and leaves the
   * device idle: the next exchange is then not told that one is running.
   */
  lemma BusyEnds(a: Start, steps: seq<Step>) returns (way: seq<Step>)
    requires Possible(FirstWorld(a), steps)
    ensures AllGoOn(way) && Possible(After(FirstWorld(a), steps), way)
    ensures var v := After(After(FirstWorld(a), steps), way); !v.live.syncing && AfterBegin(v.live).1 != Busy
  {
    FirstKeeps(a);
    RunKeeps(FirstWorld(a), steps);
    var w := After(FirstWorld(a), steps);
    way := [];
    NoSteps(w);
    if w.live.syncing {
      var id :| id in w.tasks && Guards(w.tasks[id]);
      way := GuardIdles(w, id);
    }
  }
}
