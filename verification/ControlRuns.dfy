/**
 * Every interleaving of syncs and other exchanges, resets, removals, retargets, saves and waiters on one
 * running device. Each critical section under the live lock is one atomic step of some task.
 */
module ControlRuns {
  import opened Basics
  import opened KoboDevice
  import opened Control

  type Id = nat

  /** Where a task stands; `owes` is the version of the saved state whose save it is responsible for. */
  datatype Task =
    | Exchanging(device: DeviceState, url: string, token: string)  // the operation works on its clone
    | Clearing(owes: nat)                                          // reset or remove_download deletes files
    | AwaitingSave(guarded: bool, owes: nat)                       // persist, before the save lock
    | Snapshotting(guarded: bool, owes: nat)                       // save lock held, live not cloned yet
    | Writing(guarded: bool, owes: nat, snapshot: nat)             // save lock held, writing that version
    | Releasing                                                    // about to drop its guard
    | TurnedAway                                                   // turned away, its outcome not noted yet
    | Notifying                                                    // flag cleared, waiters not woken yet
    | Waiting(asleep: bool, notified: bool)                        // wait_until_idle, registered

  /**
   * The whole system. `history` lists every value `live.saved` has had, `file` is the version on disk
   * and `unsaved` the versions newer than it whose own save failed.
   */
  datatype World = World(
    live: LiveState, tasks: map<Id, Task>, saveLock: Option<Id>,
    history: seq<SavedState>, file: nat, unsaved: set<nat>)

  datatype Step =
    | StartExchange(id: Id)
    | RefuseExchange(id: Id)
    | NoteRefusal(id: Id, done: Option<LastSync>)
    | EndExchange(id: Id, device: DeviceState, made: seq<string>, done: Option<LastSync>)
    | PanicExchange(id: Id)
    | StartReset(id: Id, booksDir: string)
    | StartRemove(id: Id, book: string)
    | Cleared(id: Id, ok: bool)
    | StartRetarget(id: Id, to: Retarget)
    | LockSave(id: Id)
    | Snapshot(id: Id)
    | EndWrite(id: Id, landed: bool, ok: bool)
    | Release(id: Id)
    | Notify(id: Id)
    | Register(id: Id)
    | Check(id: Id)
    | Wake(id: Id)

  /** Holding a `SyncingGuard` whose flag is still up. */
  predicate Guards(t: Task) {
    || t.Exchanging? || t.Clearing? || t.Releasing?
    || ((t.AwaitingSave? || t.Snapshotting? || t.Writing?) && t.guarded)
  }

  predicate At(w: World, id: Id) {
    id in w.tasks
  }

  function Newest(w: World): nat {
    if w.history == [] then 0 else |w.history| - 1
  }

  /** Every registered waiter is woken. */
  function WakeAll(tasks: map<Id, Task>): map<Id, Task> {
    map i | i in tasks :: if tasks[i].Waiting? then tasks[i].(notified := true) else tasks[i]
  }

  predicate Enabled(w: World, s: Step) {
    match s
    case StartExchange(id) => !At(w, id) && AfterBegin(w.live).1.Begin?
    case RefuseExchange(id) => !At(w, id) && AfterBegin(w.live).1.Refused?
    case NoteRefusal(id, _) => At(w, id) && w.tasks[id].TurnedAway?
    case EndExchange(id, _, _, _) => At(w, id) && w.tasks[id].Exchanging?
    case PanicExchange(id) => At(w, id) && w.tasks[id].Exchanging?
    case StartReset(id, dir) => !At(w, id) && AfterReset(w.live, dir).Some?
    case StartRemove(id, book) => !At(w, id) && AfterRemove(w.live, book).Some?
    case Cleared(id, _) => At(w, id) && w.tasks[id].Clearing?
    case StartRetarget(id, to) => !At(w, id) && AfterRetarget(w.live, to).Some?
    case LockSave(id) => At(w, id) && w.tasks[id].AwaitingSave? && w.saveLock.None?
    case Snapshot(id) => At(w, id) && w.tasks[id].Snapshotting?
    case EndWrite(id, landed, ok) => At(w, id) && w.tasks[id].Writing? && (ok ==> landed)
    case Release(id) => At(w, id) && w.tasks[id].Releasing?
    case Notify(id) => At(w, id) && w.tasks[id].Notifying?
    case Register(id) => !At(w, id)
    case Check(id) => At(w, id) && w.tasks[id].Waiting? && !w.tasks[id].asleep
    case Wake(id) => At(w, id) && w.tasks[id].Waiting? && w.tasks[id].asleep && w.tasks[id].notified
  }

  /** Where the task is after its step; `None` once it is over. */
  function TaskAfter(w: World, s: Step): Option<Task>
    requires Enabled(w, s)
  {
    match s
    case StartExchange(_) =>
      var begun := AfterBegin(w.live).1;
      Some(Exchanging(begun.device, begun.url, begun.token))
    case RefuseExchange(_) => Some(TurnedAway)
    case NoteRefusal(_, _) => None
    case EndExchange(_, _, _, _) => Some(AwaitingSave(true, |w.history|))
    case PanicExchange(_) => Some(Releasing)
    case StartReset(_, _) => Some(Clearing(|w.history|))
    case StartRemove(_, _) => Some(Clearing(|w.history|))
    case Cleared(id, ok) => Some(if ok then AwaitingSave(true, w.tasks[id].owes) else Releasing)
    case StartRetarget(_, _) => Some(AwaitingSave(false, |w.history|))
    case LockSave(id) => Some(Snapshotting(w.tasks[id].guarded, w.tasks[id].owes))
    case Snapshot(id) => Some(Writing(w.tasks[id].guarded, w.tasks[id].owes, Newest(w)))
    case EndWrite(id, _, _) => if w.tasks[id].guarded then Some(Releasing) else None
    case Release(_) => Some(Notifying)
    case Notify(_) => None
    case Register(_) => Some(Waiting(false, false))
    case Check(id) => if w.live.syncing then Some(Waiting(true, w.tasks[id].notified)) else None
    case Wake(_) => Some(Waiting(false, false))
  }

  function LiveAfter(w: World, s: Step): LiveState
    requires Enabled(w, s)
  {
    match s
    case StartExchange(_) => AfterBegin(w.live).0
    case NoteRefusal(_, done) => w.live.(lastSync := if done.Some? then done else w.live.lastSync)
    case EndExchange(_, device, made, done) => AfterCommit(w.live, device, made, done)
    case StartReset(_, dir) => AfterReset(w.live, dir).value
    case StartRemove(_, book) => AfterRemove(w.live, book).value
    case StartRetarget(_, to) => AfterRetarget(w.live, to).value
    case Release(_) => w.live.(syncing := false)
    case _ => w.live
  }

  /** Whether the step gives the saved state a new version. */
  predicate Changes(s: Step) {
    s.EndExchange? || s.StartReset? || s.StartRemove? || s.StartRetarget?
  }

  function LockAfter(w: World, s: Step): Option<Id> {
    if s.LockSave? then Some(s.id) else if s.EndWrite? then None else w.saveLock
  }

  function FileAfter(w: World, s: Step): nat
    requires Enabled(w, s)
  {
    if s.EndWrite? && s.landed then w.tasks[s.id].snapshot else w.file
  }

  /** A save given up leaves the version it owed unsaved, until a snapshot that carries it lands. */
  function UnsavedAfter(w: World, s: Step): set<nat>
    requires Enabled(w, s)
  {
    var failed := if (s.Cleared? || s.EndWrite?) && !s.ok then w.unsaved + {w.tasks[s.id].owes} else w.unsaved;
    set v | v in failed && v > FileAfter(w, s)
  }

  function TasksAfter(w: World, s: Step): map<Id, Task>
    requires Enabled(w, s)
  {
    var next := TaskAfter(w, s);
    var tasks := if next.Some? then w.tasks[s.id := next.value] else w.tasks - {s.id};
    if s.Notify? then WakeAll(tasks) else tasks
  }

  function Do(w: World, s: Step): World
    requires Enabled(w, s)
  {
    World(LiveAfter(w, s), TasksAfter(w, s), LockAfter(w, s),
          if Changes(s) then w.history + [LiveAfter(w, s).saved] else w.history,
          FileAfter(w, s), UnsavedAfter(w, s))
  }

  // -------------------------------------------------------------- invariants

  /** One guard at most is in flight, and the flag is up exactly while one is. */
  ghost predicate OneGuard(w: World) {
    && (forall i, j :: i in w.tasks && j in w.tasks && Guards(w.tasks[i]) && Guards(w.tasks[j]) ==> i == j)
    && (w.live.syncing <==> exists i :: i in w.tasks && Guards(w.tasks[i]))
  }

  /** Nothing an exchange was given has changed behind it, and its token is good for its origin. */
  predicate Undisturbed(w: World) {
    forall i :: i in w.tasks && w.tasks[i].Exchanging? ==>
      && w.live.saved.device == w.tasks[i].device
      && w.live.url == w.tasks[i].url && w.live.saved.token == w.tasks[i].token
      && TokenWiredFor(w.live.saved, w.live.url)
  }

  /** The save lock is held by exactly the task that is snapshotting or writing. */
  predicate OneSaver(w: World) {
    && (forall i :: i in w.tasks ==> (w.tasks[i].Snapshotting? || w.tasks[i].Writing? <==> w.saveLock == Some(i)))
    && (w.saveLock.Some? ==> w.saveLock.value in w.tasks)
  }

  /** Whether a task is still to bring some version to the file. */
  predicate IsOwing(t: Task) {
    t.Clearing? || t.AwaitingSave? || t.Snapshotting? || t.Writing?
  }

  predicate Owes(t: Task, v: nat) {
    IsOwing(t) && t.owes == v
  }

  /** Versions reach the file in order, and each newer than the file is owed or its save failed; no other failure is on record. */
  ghost predicate InOrder(w: World) {
    && w.history != [] && w.live.saved == w.history[|w.history| - 1]
    && w.file < |w.history|
    && (forall i :: i in w.tasks && w.tasks[i].Writing? ==>
          w.file <= w.tasks[i].snapshot < |w.history| && w.tasks[i].owes <= w.tasks[i].snapshot)
    && (forall i :: i in w.tasks && IsOwing(w.tasks[i]) ==> w.tasks[i].owes < |w.history|)
    && (forall v :: v in w.unsaved ==> w.file < v < |w.history|)
    && (forall v :: w.file < v < |w.history| && v !in w.unsaved ==> exists i :: i in w.tasks && Owes(w.tasks[i], v))
  }

  /** A sleeper no one has woken yet will be: an exchange runs, or a guard is between clearing and waking. */
  ghost predicate NoLostWakeup(w: World) {
    (exists i :: i in w.tasks && w.tasks[i].Waiting? && w.tasks[i].asleep && !w.tasks[i].notified) ==>
      w.live.syncing || exists j :: j in w.tasks && w.tasks[j].Notifying?
  }

  ghost predicate Inv(w: World) {
    OneGuard(w) && Undisturbed(w) && OneSaver(w) && InOrder(w) && NoLostWakeup(w) && PinnedHere(w.live)
  }

  /** Only task `id` comes, goes or moves on between the two. */
  ghost predicate OnlyTask(w: World, w': World, id: Id) {
    forall j :: j != id ==> (j in w.tasks <==> j in w'.tasks) && (j in w.tasks ==> w.tasks[j] == w'.tasks[j])
  }

  predicate GuardAt(w: World, id: Id) {
    id in w.tasks && Guards(w.tasks[id])
  }

  lemma GuardMoves(w: World, w': World, id: Id)
    requires OneGuard(w) && OnlyTask(w, w', id)
    requires || (GuardAt(w, id) == GuardAt(w', id) && w.live.syncing == w'.live.syncing)
             || (!w.live.syncing && GuardAt(w', id) && w'.live.syncing)
             || (GuardAt(w, id) && !GuardAt(w', id) && !w'.live.syncing)
    ensures OneGuard(w')
  {
    if w.live.syncing {
      var i :| i in w.tasks && Guards(w.tasks[i]);
      assert i != id ==> i in w'.tasks && Guards(w'.tasks[i]);
    }
    forall i, j | i in w'.tasks && j in w'.tasks && Guards(w'.tasks[i]) && Guards(w'.tasks[j]) ensures i == j {
      if i != id && j != id {
        assert w.tasks[i] == w'.tasks[i] && w.tasks[j] == w'.tasks[j];
      }
    }
    if GuardAt(w', id) {
      assert Guards(w'.tasks[id]);
    }
  }

  lemma StepTouches(w: World, s: Step)
    requires Enabled(w, s) && !s.Notify?
    ensures OnlyTask(w, Do(w, s), s.id)
  {}

  lemma NotifyGuard(w: World, s: Step)
    requires Inv(w) && Enabled(w, s) && s.Notify?
    ensures OneGuard(Do(w, s))
  {
    var w' := Do(w, s);
    forall i ensures GuardAt(w', i) == GuardAt(w, i) {}
    if w.live.syncing {
      var i :| i in w.tasks && Guards(w.tasks[i]);
      assert GuardAt(w', i);
    }
    forall i, j | i in w'.tasks && j in w'.tasks && Guards(w'.tasks[i]) && Guards(w'.tasks[j]) ensures i == j {
      assert GuardAt(w, i) && GuardAt(w, j);
    }
    if i :| i in w'.tasks && Guards(w'.tasks[i]) {
      assert GuardAt(w, i);
    }
  }

  lemma GuardStep(w: World, s: Step)
    requires Inv(w) && Enabled(w, s)
    ensures OneGuard(Do(w, s))
  {
    if s.Notify? {
      NotifyGuard(w, s);
    } else {
      StepTouches(w, s);
      if GuardAt(w, s.id) { assert w.live.syncing; }
      GuardMoves(w, Do(w, s), s.id);
    }
  }

  lemma DisturbStep(w: World, s: Step)
    requires Inv(w) && Enabled(w, s)
    ensures Undisturbed(Do(w, s)) && PinnedHere(Do(w, s).live)
  {
    var w' := Do(w, s);
    assert s.EndExchange? ==> GuardAt(w, s.id);
    forall i | i in w'.tasks && w'.tasks[i].Exchanging?
      ensures && w'.live.saved.device == w'.tasks[i].device
              && w'.live.url == w'.tasks[i].url && w'.live.saved.token == w'.tasks[i].token
              && TokenWiredFor(w'.live.saved, w'.live.url)
    {
      if i in w.tasks && w.tasks[i].Exchanging? {
        assert GuardAt(w, i);
      }
    }
  }

  lemma SaverStep(w: World, s: Step)
    requires Inv(w) && Enabled(w, s)
    ensures OneSaver(Do(w, s))
  {
    var w' := Do(w, s);
    forall i | i in w'.tasks
      ensures w'.tasks[i].Snapshotting? || w'.tasks[i].Writing? <==> w'.saveLock == Some(i)
    {
      if !s.Notify? { StepTouches(w, s); }
    }
  }

  /** Whether version `v` is still owed by some task. */
  ghost predicate Owed(w: World, v: nat) {
    exists i :: i in w.tasks && Owes(w.tasks[i], v)
  }

  /** A task that owes a version goes on owing it, unless its save ends. */
  lemma OwnerStep(w: World, s: Step, v: nat)
    requires Enabled(w, s) && At(w, s.id) && Owes(w.tasks[s.id], v)
    requires w.tasks[s.id].Writing? ==> v <= w.tasks[s.id].snapshot
    ensures (TaskAfter(w, s).Some? && Owes(TaskAfter(w, s).value, v)) || v in UnsavedAfter(w, s) || v <= FileAfter(w, s)
  {}

  lemma OwedStep(w: World, s: Step, v: nat)
    requires Inv(w) && Enabled(w, s) && w.file < v < |w.history| && v !in Do(w, s).unsaved && Do(w, s).file < v
    ensures Owed(Do(w, s), v)
  {
    var w' := Do(w, s);
    assert v !in w.unsaved;
    var i :| i in w.tasks && Owes(w.tasks[i], v);
    if i == s.id {
      OwnerStep(w, s, v);
    }
    assert i in w'.tasks && Owes(w'.tasks[i], v);
  }

  lemma OrderStep(w: World, s: Step)
    requires Inv(w) && Enabled(w, s)
    ensures InOrder(Do(w, s))
  {
    var w' := Do(w, s);
    if !s.Notify? { StepTouches(w, s); }
    assert w.file <= w'.file;
    FailuresStep(w, s);
    forall v | w'.file < v < |w'.history| && v !in w'.unsaved ensures Owed(w', v) {
      if v < |w.history| {
        OwedStep(w, s, v);
      } else {
        assert s.id in w'.tasks && Owes(w'.tasks[s.id], v);
      }
    }
    WritersStep(w, s);
  }

  lemma FailuresStep(w: World, s: Step)
    requires Inv(w) && Enabled(w, s)
    ensures var w' := Do(w, s); forall v :: v in w'.unsaved ==> w'.file < v < |w'.history|
  {}

  lemma WritersStep(w: World, s: Step)
    requires Inv(w) && Enabled(w, s)
    ensures var w' := Do(w, s);
            forall i :: i in w'.tasks ==>
              && (IsOwing(w'.tasks[i]) ==> w'.tasks[i].owes < |w'.history|)
              && (w'.tasks[i].Writing? ==>
                    w'.file <= w'.tasks[i].snapshot < |w'.history| && w'.tasks[i].owes <= w'.tasks[i].snapshot)
  {
    var w' := Do(w, s);
    forall i | i in w'.tasks
      ensures IsOwing(w'.tasks[i]) ==> w'.tasks[i].owes < |w'.history|
      ensures w'.tasks[i].Writing? ==>
                w'.file <= w'.tasks[i].snapshot < |w'.history| && w'.tasks[i].owes <= w'.tasks[i].snapshot
    {
      if !s.Notify? { StepTouches(w, s); }
    }
  }

  lemma WakeStep(w: World, s: Step)
    requires Inv(w) && Enabled(w, s)
    ensures NoLostWakeup(Do(w, s))
  {
    var w' := Do(w, s);
    if exists i :: i in w'.tasks && w'.tasks[i].Waiting? && w'.tasks[i].asleep && !w'.tasks[i].notified {
      var i :| i in w'.tasks && w'.tasks[i].Waiting? && w'.tasks[i].asleep && !w'.tasks[i].notified;
      assert !s.Notify?;
      if s.Release? {
        assert w'.tasks[s.id].Notifying?;
      } else if !w'.live.syncing {
        assert i in w.tasks;
        var j :| j in w.tasks && w.tasks[j].Notifying?;
        assert j in w'.tasks && w'.tasks[j].Notifying?;
      }
    }
  }

  /** Every step of every task keeps all of it. */
  lemma StepKeeps(w: World, s: Step)
    requires Inv(w) && Enabled(w, s)
    ensures Inv(Do(w, s))
  {
    GuardStep(w, s);
    DisturbStep(w, s);
    SaverStep(w, s);
    OrderStep(w, s);
    WakeStep(w, s);
  }

  // -------------------------------------------------------------------- runs

  predicate Possible(w: World, steps: seq<Step>)
    decreases |steps|, 0
  {
    steps != [] ==>
      Possible(w, steps[..|steps| - 1]) && Enabled(After(w, steps[..|steps| - 1]), steps[|steps| - 1])
  }

  function After(w: World, steps: seq<Step>): World
    requires Possible(w, steps)
    decreases |steps|, 1
  {
    if steps == [] then w else Do(After(w, steps[..|steps| - 1]), steps[|steps| - 1])
  }

  lemma NoSteps(w: World)
    ensures Possible(w, []) && After(w, []) == w
  {}

  lemma OneMore(w: World, steps: seq<Step>, s: Step, more: seq<Step>)
    requires Possible(w, steps) && Enabled(After(w, steps), s) && more == steps + [s]
    ensures Possible(w, more) && After(w, more) == Do(After(w, steps), s)
  {
    assert more[..|more| - 1] == steps;
  }

  lemma TwoSteps(w: World, a: Step, b: Step)
    requires Enabled(w, a) && Enabled(Do(w, a), b)
    ensures Possible(w, [a, b]) && After(w, [a, b]) == Do(Do(w, a), b)
  {
    NoSteps(w);
    OneMore(w, [], a, [a]);
    OneMore(w, [a], b, [a, b]);
  }

  lemma ThreeSteps(w: World, a: Step, b: Step, c: Step)
    requires Enabled(w, a) && Enabled(Do(w, a), b) && Enabled(Do(Do(w, a), b), c)
    ensures Possible(w, [a, b, c]) && After(w, [a, b, c]) == Do(Do(Do(w, a), b), c)
  {
    TwoSteps(w, a, b);
    OneMore(w, [a, b], c, [a, b, c]);
  }

  lemma {:induction false} RunKeeps(w: World, steps: seq<Step>)
    requires Inv(w) && Possible(w, steps)
    ensures Inv(After(w, steps)) && w.file <= After(w, steps).file
  {
    if steps != [] {
      var init := steps[..|steps| - 1];
      RunKeeps(w, init);
      StepKeeps(After(w, init), steps[|steps| - 1]);
    }
  }

  /** How a device started, whatever it was given: no task yet, its state just saved. */
  datatype Start = Start(argUrl: Option<string>, argToken: Option<string>, saved: Option<SavedState>,
                         devServer: Option<string>, wired: string, minted: string, booksDir: string)

  function FirstWorld(a: Start): World {
    var (saved, url) := StartState(a.argUrl, a.argToken, a.saved, a.devServer, a.wired, a.minted);
    var l := Started(saved, url, a.booksDir);
    World(l, map[], None, [l.saved], 0, {})
  }

  lemma FirstKeeps(a: Start)
    ensures Inv(FirstWorld(a))
  {
    StartIsGood(a.argUrl, a.argToken, a.saved, a.devServer, a.wired, a.minted, a.booksDir);
  }

  /**
   * From any start, in every interleaving: one exchange or local action at a time; what an exchange commits
   * replaces exactly the device it cloned, with nothing else of the saved state changed since; and it ran
   * with a token good for its origin.
   */
  lemma NoLostUpdate(a: Start, steps: seq<Step>, s: Step)
    requires Possible(FirstWorld(a), steps)
    requires s.EndExchange? && Enabled(After(FirstWorld(a), steps), s)
    ensures var w := After(FirstWorld(a), steps);
            var t := w.tasks[s.id];
            && (forall j :: j in w.tasks && Guards(w.tasks[j]) ==> j == s.id)
            && t.device == w.live.saved.device && t.url == w.live.url && t.token == w.live.saved.token
            && TokenWiredFor(w.live.saved, t.url)
            && Do(w, s).live.saved == w.live.saved.(device := s.device)
  {
    FirstKeeps(a);
    RunKeeps(FirstWorld(a), steps);
  }

  /**
   * Once no save is owed, the file holds the live state exactly when the newest version's own save did not
   * fail, or a later save carried it; the versions past the file are then exactly those whose save failed.
   */
  lemma QuietFileIsLive(a: Start, steps: seq<Step>)
    requires Possible(FirstWorld(a), steps)
    requires Quiet(After(FirstWorld(a), steps))
    ensures var w := After(FirstWorld(a), steps);
            && (w.file == Newest(w) <==> Newest(w) !in w.unsaved)
            && w.file < |w.history| && w.live.saved == w.history[Newest(w)]
            && forall v :: v in w.unsaved <==> w.file < v < |w.history|
  {
    FirstKeeps(a);
    RunKeeps(FirstWorld(a), steps);
  }

  /** No save is owed. */
  ghost predicate Quiet(w: World) {
    forall i :: i in w.tasks ==> !IsOwing(w.tasks[i])
  }

  /** A step at which a save is given up before it reaches the file. */
  predicate LosesSave(s: Step) {
    (s.Cleared? && !s.ok) || (s.EndWrite? && !s.landed)
  }

  predicate Landing(steps: seq<Step>) {
    forall k :: 0 <= k < |steps| ==> !LosesSave(steps[k])
  }

  lemma LandedStep(w: World, s: Step)
    requires Inv(w) && Enabled(w, s) && w.unsaved == {} && !LosesSave(s)
    ensures Do(w, s).unsaved == {}
  {}

  lemma {:induction false} LandedRun(w: World, steps: seq<Step>)
    requires Inv(w) && Possible(w, steps) && w.unsaved == {} && Landing(steps)
    ensures After(w, steps).unsaved == {}
  {
    if steps != [] {
      var init := steps[..|steps| - 1];
      LandedRun(w, init);
      RunKeeps(w, init);
      LandedStep(After(w, init), steps[|steps| - 1]);
    }
  }

  /** If every save reaches the file, the file is the live state whenever no save is owed. */
  lemma LandedFileIsLive(a: Start, steps: seq<Step>)
    requires Possible(FirstWorld(a), steps) && Landing(steps) && Quiet(After(FirstWorld(a), steps))
    ensures var w := After(FirstWorld(a), steps);
            w.file == Newest(w) < |w.history| && w.history[w.file] == w.live.saved
  {
    FirstKeeps(a);
    LandedRun(FirstWorld(a), steps);
    QuietFileIsLive(a, steps);
  }

  /** A reset that cannot clear the books directory. */
  function FailedReset(booksDir: string): seq<Step> {
    [StartReset(0, booksDir), Cleared(0, false), Release(0), Notify(0)]
  }

  /** The failing case: no write failed and nothing is owed, yet the device is wiped and the file still has its library. */
  lemma FailedResetUnsaved(a: Start, booksDir: string)
    ensures var steps := FailedReset(booksDir);
            && Possible(FirstWorld(a), steps) && Quiet(After(FirstWorld(a), steps))
            && var w := After(FirstWorld(a), steps);
               && w.unsaved == {1} && w.file == 0 && Newest(w) == 1
               && w.live.saved.device.library == map[]
               && w.history[w.file].device.library == FirstWorld(a).live.saved.device.library
  {
    FailedResetRun(FirstWorld(a), booksDir);
  }

  lemma FailedResetRun(w: World, booksDir: string)
    requires w.tasks == map[] && !w.live.syncing && |w.history| == 1 && w.file == 0 && w.unsaved == {}
    ensures var steps := FailedReset(booksDir);
            && Possible(w, steps) && After(w, steps).tasks == map[]
            && var v := After(w, steps);
               v.unsaved == {1} && v.file == 0 && |v.history| == 2 && v.history[0] == w.history[0]
               && v.live.saved.device.library == map[]
  {
    var a, b, c, d := StartReset(0, booksDir), Cleared(0, false), Release(0), Notify(0);
    var w1 := Do(w, a);
    assert w1.tasks == map[0 := Clearing(1)] && |w1.history| == 2;
    var w2 := Do(w1, b);
    assert w2.tasks == map[0 := Releasing] && w2.unsaved == {1};
    var w3 := Do(w2, c);
    assert w3.tasks == map[0 := Notifying] && w3.unsaved == {1};
    ThreeSteps(w, a, b, c);
    OneMore(w, [a, b, c], d, FailedReset(booksDir));
  }

  /** The file only ever moves on to newer versions. */
  lemma FileMovesForward(a: Start, before: seq<Step>, after: seq<Step>)
    requires Possible(FirstWorld(a), before) && Possible(After(FirstWorld(a), before), after)
    ensures After(FirstWorld(a), before).file <= After(After(FirstWorld(a), before), after).file
  {
    FirstKeeps(a);
    RunKeeps(FirstWorld(a), before);
    RunKeeps(After(FirstWorld(a), before), after);
  }

  /** A waiter is never left asleep once the last exchange and its wake-up are over. */
  lemma NoSleepPastTheEnd(a: Start, steps: seq<Step>, i: Id)
    requires Possible(FirstWorld(a), steps)
    requires var w := After(FirstWorld(a), steps);
      && i in w.tasks && w.tasks[i].Waiting? && w.tasks[i].asleep
      && !w.live.syncing && forall j :: j in w.tasks ==> !w.tasks[j].Notifying?
    ensures After(FirstWorld(a), steps).tasks[i].notified
    ensures Enabled(After(FirstWorld(a), steps), Wake(i))
  {
    FirstKeeps(a);
    RunKeeps(FirstWorld(a), steps);
  }

  /** What lets waiter `i` go: the wake-up it still needs, if any, and its own two steps. */
  function WayOut(w: World, i: Id, notifier: Id): seq<Step>
    requires At(w, i) && w.tasks[i].Waiting?
  {
    (if w.tasks[i].asleep && !w.tasks[i].notified then [Notify(notifier)] else [])
    + (if w.tasks[i].asleep then [Wake(i)] else [])
    + [Check(i)]
  }

  /**
   * Whenever no exchange runs, any waiter can return in at most three steps, none of which starts anything
   * new: the wake-up already under way, if the waiter still needs it, and its own.
   */
  lemma WaiterReturns(a: Start, steps: seq<Step>, i: Id) returns (notifier: Id)
    requires Possible(FirstWorld(a), steps)
    requires var w := After(FirstWorld(a), steps); At(w, i) && w.tasks[i].Waiting? && !w.live.syncing
    ensures var w := After(FirstWorld(a), steps);
            Possible(w, WayOut(w, i, notifier)) && !At(After(w, WayOut(w, i, notifier)), i)
  {
    FirstKeeps(a);
    RunKeeps(FirstWorld(a), steps);
    var w := After(FirstWorld(a), steps);
    notifier := i;
    if w.tasks[i].asleep && !w.tasks[i].notified {
      notifier :| At(w, notifier) && w.tasks[notifier].Notifying?;
    }
    WayIsOpen(w, i, notifier);
  }

  lemma WayIsOpen(w: World, i: Id, notifier: Id)
    requires At(w, i) && w.tasks[i].Waiting? && !w.live.syncing
    requires w.tasks[i].asleep && !w.tasks[i].notified ==> At(w, notifier) && w.tasks[notifier].Notifying?
    ensures Possible(w, WayOut(w, i, notifier)) && !At(After(w, WayOut(w, i, notifier)), i)
  {
    var way := WayOut(w, i, notifier);
    if !w.tasks[i].asleep {
      NoSteps(w);
      OneMore(w, [], Check(i), way);
    } else if w.tasks[i].notified {
      assert way == [Wake(i), Check(i)];
      NotifiedGoes(w, i);
    } else {
      assert way == [Notify(notifier), Wake(i), Check(i)];
      WokenGoes(w, i, notifier);
    }
  }

  lemma NotifiedGoes(w: World, i: Id)
    requires At(w, i) && w.tasks[i].Waiting? && w.tasks[i].asleep && w.tasks[i].notified && !w.live.syncing
    ensures var way := [Wake(i), Check(i)]; Possible(w, way) && !At(After(w, way), i)
  {
    var w1 := Do(w, Wake(i));
    assert w1.tasks[i] == Waiting(false, false) && !w1.live.syncing;
    TwoSteps(w, Wake(i), Check(i));
  }

  lemma WokenGoes(w: World, i: Id, notifier: Id)
    requires At(w, i) && w.tasks[i].Waiting? && w.tasks[i].asleep && !w.live.syncing
    requires At(w, notifier) && w.tasks[notifier].Notifying?
    ensures var way := [Notify(notifier), Wake(i), Check(i)]; Possible(w, way) && !At(After(w, way), i)
  {
    var w1 := Do(w, Notify(notifier));
    assert w1.tasks[i] == Waiting(true, true) && !w1.live.syncing;
    var w2 := Do(w1, Wake(i));
    assert w2.tasks[i] == Waiting(false, false) && !w2.live.syncing;
    ThreeSteps(w, Notify(notifier), Wake(i), Check(i));
  }
}
