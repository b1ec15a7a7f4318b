/**
 * Halls and their schedules (internal/models/hall.go). A schedule is a window
 * [from, to) and the hall's shows; `IsFree` tests a candidate show against them.
 */
module HallModel {
  import opened Wrappers
  import opened ShowModel
  import opened SeatModel

  datatype Hall = Hall(
    id: int,
    theaterId: int,
    managerId: int,
    name: string,
    code: string,
    createdAt: int,
    updatedAt: int,
    seating: Option<Seating>)

  datatype Schedule = Schedule(from: int, to: int, shows: seq<Show>)

  /**
   * An error that `errors.Is` recognises as ErrInvalidSchedule. `IsFree` only ever
   * builds `Conflict`, naming the screening it collides with; `OutsideWindow` is
   * used by `IsFreeWithinWindow` only.
   */
  datatype ScheduleError = Conflict(show: Show) | OutsideWindow

  /** Half-open overlap: `a` starts before `b` ends and `b` starts before `a` ends. */
  predicate Overlaps(a: Show, b: Show)
  {
    a.start < b.end && b.start < a.end
  }

  /**
   * `Schedule.IsFree`: scans the shows in stored order and reports the first one
   * that overlaps the candidate. The window [from, to) is never read.
   */
  function IsFree(s: Schedule, show: Show): (err: Option<ScheduleError>)
    decreases |s.shows|
    ensures err.None? <==> forall i :: 0 <= i < |s.shows| ==> !Overlaps(s.shows[i], show)
    ensures err.Some? ==> exists i :: (0 <= i < |s.shows| && err == Some(Conflict(s.shows[i]))
      && Overlaps(s.shows[i], show) && forall j :: 0 <= j < i ==> !Overlaps(s.shows[j], show))
  {
    if s.shows == [] then None
    else if Overlaps(s.shows[0], show) then Some(Conflict(s.shows[0]))
    else
      var rest := s.(shows := s.shows[1..]);
      assert forall i :: 0 < i < |s.shows| ==> s.shows[i] == rest.shows[i - 1];
      IsFree(rest, show)
  }

  /** The overlap test does not depend on which of the two shows is the stored one. */
  lemma OverlapsSymmetric(a: Show, b: Show)
    ensures Overlaps(a, b) <==> Overlaps(b, a)
  {
  }

  /** A hall with no shows accepts every candidate. */
  lemma EmptyScheduleAcceptsAll(from: int, to: int, show: Show)
    ensures IsFree(Schedule(from, to, []), show) == None
  {
  }

  /**
   * Touching endpoints are not a conflict: a candidate that starts exactly when a
   * stored show ends, or ends exactly when it starts, is never rejected because of it.
   */
  lemma TouchingIsNotConflict(s: Schedule, show: Show, sh: Show)
    requires show.start == sh.end || show.end == sh.start
    ensures IsFree(s, show) != Some(Conflict(sh))
  {
  }

  /** When several shows conflict, the one reported is the first of them in stored order. */
  lemma {:induction false} ReportsFirstConflict(s: Schedule, show: Show, i: nat)
    requires i < |s.shows| && Overlaps(s.shows[i], show)
    requires forall j :: 0 <= j < i ==> !Overlaps(s.shows[j], show)
    ensures IsFree(s, show) == Some(Conflict(s.shows[i]))
    decreases i
  {
    if i > 0 {
      var rest := s.(shows := s.shows[1..]);
      ReportsFirstConflict(rest, show, i - 1);
    }
  }

  /** The verdict depends on the shows only: `from` and `to` are never read. */
  lemma {:induction false} WindowIsIgnored(s: Schedule, show: Show, from: int, to: int)
    ensures IsFree(s.(from := from, to := to), show) == IsFree(s, show)
    decreases |s.shows|
  {
    if s.shows != [] && !Overlaps(s.shows[0], show) {
      WindowIsIgnored(s.(shows := s.shows[1..]), show, from, to);
    }
  }

  /**
   * The corrected check the schedule test expects: a candidate not lying within the
   * window [from, to) is rejected first; otherwise the collision scan decides.
   */
  function IsFreeWithinWindow(s: Schedule, show: Show): (err: Option<ScheduleError>)
    ensures err.None? <==> (s.from <= show.start && show.end <= s.to
      && forall i :: 0 <= i < |s.shows| ==> !Overlaps(s.shows[i], show))
    ensures (show.start < s.from || show.end > s.to) ==> err == Some(OutsideWindow)
  {
    if show.start < s.from || show.end > s.to then Some(OutsideWindow) else IsFree(s, show)
  }

  // The schedule of the unit test in internal/models/show_test.go, in nanoseconds since 1970.

  const Dec1: int := 1_764_547_200 * 1_000_000_000

  /** December `day`, 2025, at `hour`:00 UTC. */
  function At(day: int, hour: int): int
  {
    Dec1 + ((day - 1) * 24 + hour) * Hour
  }

  function Candidate(start: int, end: int): Show
  {
    Show(0, 0, 0, "", "", "", "", start, end, 0, 0)
  }

  function TestSchedule(): Schedule
  {
    Schedule(At(5, 0), At(12, 0), [
      Candidate(At(4, 22), At(5, 1)),
      Candidate(At(6, 12), At(6, 15)),
      Candidate(At(6, 23), At(7, 2)),
      Candidate(At(7, 15), At(7, 18)),
      Candidate(At(11, 22), At(12, 3))])
  }

  /** The test's "collision" case: [Dec 6 14:00, 17:00) hits the Dec 6 12:00-15:00 screening. */
  lemma TestCollisionRejected()
    ensures IsFree(TestSchedule(), Candidate(At(6, 14), At(6, 17))) == Some(Conflict(TestSchedule().shows[1]))
  {
    ReportsFirstConflict(TestSchedule(), Candidate(At(6, 14), At(6, 17)), 1);
  }

  /** The test's "valid show" case: [Dec 5 03:00, 06:00) is accepted. */
  lemma TestValidShowAccepted()
    ensures IsFree(TestSchedule(), Candidate(At(5, 3), At(5, 6))) == None
  {
  }

  /** The test expects "before schedule" [Dec 4 03:00, 06:00) to be rejected; IsFree accepts it. */
  lemma TestBeforeScheduleAccepted()
    ensures IsFree(TestSchedule(), Candidate(At(4, 3), At(4, 6))) == None
  {
  }

  /** The test expects "after schedule" [Dec 12 03:00, 06:00) to be rejected; IsFree accepts it. */
  lemma TestAfterScheduleAccepted()
    ensures IsFree(TestSchedule(), Candidate(At(12, 3), At(12, 6))) == None
  {
  }

  /** The corrected check gives every outcome the test asks for. */
  lemma TestCasesWithinWindow()
    ensures IsFreeWithinWindow(TestSchedule(), Candidate(At(5, 3), At(5, 6))) == None
    ensures IsFreeWithinWindow(TestSchedule(), Candidate(At(4, 3), At(4, 6))) == Some(OutsideWindow)
    ensures IsFreeWithinWindow(TestSchedule(), Candidate(At(12, 3), At(12, 6))) == Some(OutsideWindow)
    ensures IsFreeWithinWindow(TestSchedule(), Candidate(At(6, 14), At(6, 17))).Some?
  {
  }
}
