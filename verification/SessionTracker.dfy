/** The reading-session tracker: which stretches of time are reported, for which book, and what is lost. */
module SessionTracking {
  import opened Basics

  const MIN_SESSION_SECS := 5

  datatype Phase = Idle | Paused(uuid: string) | Active(uuid: string, startedAt: int)

  datatype SessionReport = SessionReport(uuid: string, format: string, startedAt: int, endedAt: int, units: int)

  datatype Call = Start(uuid: string, now: int) | Stop(now: int) | Suspend(now: int) | Resume(now: int) | Rollover(now: int)

  /** `report`. */
  function ReportOf(format: string, uuid: string, start: int, end: int): Option<SessionReport> {
    if end - start < MIN_SESSION_SECS then None else Some(SessionReport(uuid, format, start, end, end - start))
  }

  function Taken(format: string, p: Phase, now: int): Option<SessionReport> {
    if p.Active? then ReportOf(format, p.uuid, p.startedAt, now) else None
  }

  /** What a call says, and the phase it leaves. */
  function Said(format: string, p: Phase, c: Call): Option<SessionReport> {
    match c
    case Start(uuid, now) => if p.Active? && p.uuid == uuid then None else Taken(format, p, now)
    case Stop(now) => Taken(format, p, now)
    case Suspend(now) => Taken(format, p, now)
    case Resume(_) => None
    case Rollover(now) => Taken(format, p, now)
  }

  function After(p: Phase, c: Call): Phase {
    match c
    case Start(uuid, now) => if p.Active? && p.uuid == uuid then p else Active(uuid, now)
    case Stop(_) => Idle
    case Suspend(_) => if p.Active? then Paused(p.uuid) else p
    case Resume(now) => if p.Paused? then Active(p.uuid, now) else p
    case Rollover(now) =>
      if p.Active? && now - p.startedAt >= MIN_SESSION_SECS then Active(p.uuid, now) else p
  }

  class SessionTracker {
    var phase: Phase
    const format: string

    constructor (format: string)
      ensures phase == Idle && this.format == format
    {
      phase := Idle;
      this.format := format;
    }

    method Start(uuid: string, now: int) returns (ended: Option<SessionReport>)
      modifies this
      ensures ended == Said(format, old(phase), Call.Start(uuid, now))
      ensures phase == After(old(phase), Call.Start(uuid, now))
    {
      if phase.Active? && phase.uuid == uuid {
        return None;
      }
      ended := Take(now);
      phase := Active(uuid, now);
    }

    method Stop(now: int) returns (ended: Option<SessionReport>)
      modifies this
      ensures ended == Said(format, old(phase), Call.Stop(now)) && phase == After(old(phase), Call.Stop(now))
    {
      ended := Take(now);
      phase := Idle;
    }

    method Suspend(now: int) returns (ended: Option<SessionReport>)
      modifies this
      ensures ended == Said(format, old(phase), Call.Suspend(now)) && phase == After(old(phase), Call.Suspend(now))
    {
      ended := Take(now);
      if phase.Active? {
        phase := Paused(phase.uuid);
      }
    }

    method Resume(now: int)
      modifies this
      ensures phase == After(old(phase), Call.Resume(now))
    {
      if phase.Paused? {
        phase := Active(phase.uuid, now);
      }
    }

    method Rollover(now: int) returns (ended: Option<SessionReport>)
      modifies this
      ensures ended == Said(format, old(phase), Call.Rollover(now)) && phase == After(old(phase), Call.Rollover(now))
    {
      var was := phase;
      if !was.Active? || now - was.startedAt < MIN_SESSION_SECS {
        return None;
      }
      phase := Active(was.uuid, now);
      ended := ReportOf(format, was.uuid, was.startedAt, now);
    }

    /** `#take`. */
    method Take(now: int) returns (ended: Option<SessionReport>)
      ensures ended == Taken(format, phase, now)
    {
      ended := if phase.Active? then ReportOf(format, phase.uuid, phase.startedAt, now) else None;
    }
  }

  // ---------------------------------------------------------- a run of calls

  predicate Clocked(run: seq<Call>) {
    forall i, j :: 0 <= i < j < |run| ==> run[i].now <= run[j].now
  }

  function PhaseAfter(run: seq<Call>, n: nat): Phase
    requires n <= |run|
  {
    if n == 0 then Idle else After(PhaseAfter(run, n - 1), run[n - 1])
  }

  function SaidAt(format: string, run: seq<Call>, k: nat): Option<SessionReport>
    requires k < |run|
  {
    Said(format, PhaseAfter(run, k), run[k])
  }

  /** What the calls say is in front of the reader, whatever the tracker makes of the times. */
  datatype Front = Nothing | Waiting(uuid: string) | Reading(uuid: string)

  function FrontAfter(run: seq<Call>, n: nat): Front
    requires n <= |run|
  {
    if n == 0 then Nothing
    else
      var f := FrontAfter(run, n - 1);
      match run[n - 1]
      case Start(uuid, _) => Reading(uuid)
      case Stop(_) => Nothing
      case Suspend(_) => if f.Reading? then Waiting(f.uuid) else f
      case Resume(_) => if f.Waiting? then Reading(f.uuid) else f
      case Rollover(_) => f
  }

  function FrontOf(p: Phase): Front {
    match p case Idle => Nothing case Paused(uuid) => Waiting(uuid) case Active(uuid, _) => Reading(uuid)
  }

  lemma {:induction false} PhaseShowsFront(run: seq<Call>, n: nat)
    requires n <= |run|
    ensures FrontOf(PhaseAfter(run, n)) == FrontAfter(run, n)
  {
    if n > 0 {
      PhaseShowsFront(run, n - 1);
    }
  }

  /** From call `i` up to call `k`, the book in front was `uuid`, without a break. */
  predicate ReadThroughout(run: seq<Call>, uuid: string, i: nat, k: nat)
    requires k <= |run|
  {
    forall j :: i < j <= k ==> FrontAfter(run, j) == Reading(uuid)
  }

  lemma {:induction false} ActiveSince(run: seq<Call>, n: nat) returns (i: nat)
    requires n <= |run| && PhaseAfter(run, n).Active?
    ensures i < n && run[i].now == PhaseAfter(run, n).startedAt
    ensures ReadThroughout(run, PhaseAfter(run, n).uuid, i, n)
  {
    PhaseShowsFront(run, n);
    if PhaseAfter(run, n - 1) == PhaseAfter(run, n) {
      i := ActiveSince(run, n - 1);
    } else {
      i := n - 1;
    }
  }

  /** Every report is for the book in front throughout it, starts at a call, ends at the reporting one, and is no bounce. */
  lemma ReportIsActive(format: string, run: seq<Call>, k: nat) returns (i: nat)
    requires Clocked(run) && k < |run| && SaidAt(format, run, k).Some?
    ensures var r := SaidAt(format, run, k).value;
            && i < k && r.startedAt == run[i].now && r.endedAt == run[k].now && r.format == format
            && r.endedAt - r.startedAt >= 5 && r.units == r.endedAt - r.startedAt
            && ReadThroughout(run, r.uuid, i, k)
  {
    i := ActiveSince(run, k);
  }

  lemma {:induction false} StartsAfterReport(format: string, run: seq<Call>, k: nat, n: nat)
    requires Clocked(run) && k < n <= |run| && SaidAt(format, run, k).Some? && PhaseAfter(run, n).Active?
    ensures SaidAt(format, run, k).value.endedAt <= PhaseAfter(run, n).startedAt
  {
    if k < n - 1 && PhaseAfter(run, n - 1) == PhaseAfter(run, n) {
      StartsAfterReport(format, run, k, n - 1);
    }
  }

  /** Reports never overlap and come in the order of time. */
  lemma ReportsDisjoint(format: string, run: seq<Call>, k: nat, l: nat)
    requires Clocked(run) && k < l < |run| && SaidAt(format, run, k).Some? && SaidAt(format, run, l).Some?
    ensures SaidAt(format, run, k).value.endedAt <= SaidAt(format, run, l).value.startedAt
  {
    StartsAfterReport(format, run, k, l);
  }

  // ------------------------------------------------------------- accounting

  /** Time with a book in front, up to call `n - 1`. */
  function ActiveTime(run: seq<Call>, n: nat): int
    requires n <= |run|
  {
    if n <= 1 then 0
    else ActiveTime(run, n - 1) + if FrontAfter(run, n - 1).Reading? then run[n - 1].now - run[n - 2].now else 0
  }

  function ReportedTime(format: string, run: seq<Call>, n: nat): int
    requires n <= |run|
  {
    if n == 0 then 0
    else
      ReportedTime(format, run, n - 1)
      + match SaidAt(format, run, n - 1) case None => 0 case Some(r) => r.endedAt - r.startedAt
  }

  /** Whether call `k` takes the book away from the front. */
  predicate Ends(run: seq<Call>, k: nat)
    requires k < |run|
  {
    FrontAfter(run, k).Reading? && FrontAfter(run, k + 1) != FrontAfter(run, k)
  }

  /** Stretches of reading that ended without a report. */
  function Discarded(format: string, run: seq<Call>, n: nat): nat
    requires n <= |run|
  {
    if n == 0 then 0
    else Discarded(format, run, n - 1) + if Ends(run, n - 1) && SaidAt(format, run, n - 1).None? then 1 else 0
  }

  /** Time counted but not yet reported. */
  function Pending(run: seq<Call>, n: nat): int
    requires n <= |run|
  {
    if n > 0 && PhaseAfter(run, n).Active? then run[n - 1].now - PhaseAfter(run, n).startedAt else 0
  }

  /** A heartbeat leaves less than five seconds pending, and a call that takes the book away leaves none. */
  lemma PendingIsShort(run: seq<Call>, n: nat)
    requires Clocked(run) && 0 < n <= |run|
    ensures run[n - 1].Rollover? ==> Pending(run, n) < 5
    ensures Ends(run, n - 1) ==> Pending(run, n) == 0
  {
    PhaseShowsFront(run, n - 1);
    PhaseShowsFront(run, n);
  }

  /** Active time is reported, still pending, or lost; less than five seconds are lost, and only where a stretch was discarded. */
  lemma {:induction false} ActiveTimeIsAccountedFor(format: string, run: seq<Call>, n: nat)
    requires Clocked(run) && n <= |run|
    ensures var lost := ActiveTime(run, n) - ReportedTime(format, run, n) - Pending(run, n);
            0 <= lost <= 4 * Discarded(format, run, n)
  {
    if n > 0 {
      ActiveTimeIsAccountedFor(format, run, n - 1);
      PhaseShowsFront(run, n - 1);
      PhaseShowsFront(run, n);
      if PhaseAfter(run, n - 1).Active? {
        var i := ActiveSince(run, n - 1);
      }
    }
  }
}
