/** Study-time tracking of the grade router: a student starts and ends timed study sessions, and
    the whole hours studied are kept in the student's progress record. Times are microseconds,
    the resolution of Python's `datetime`; the clock reading is a parameter. */
module StudySessions {
  import opened Seqs
  import opened ProgressRecords

  datatype StudySession = StudySession(id: int, studentId: int, startTime: int, endTime: Option<int>,
                                       durationMinutes: Option<int>, activityType: Option<string>)

  const MicrosPerMinute := 60_000_000

  /** `int((end - start).total_seconds() / 60)`: the whole minutes elapsed, truncated toward zero. */
  function MinutesBetween(start: int, end: int): (d: int)
    ensures start <= end ==> d >= 0 && d * MicrosPerMinute <= end - start < (d + 1) * MicrosPerMinute
    ensures end < start ==> d <= 0
  {
    var d := Trunc((end - start) as real / MicrosPerMinute as real);
    assert start <= end ==> d * MicrosPerMinute <= end - start < (d + 1) * MicrosPerMinute by {
      if start <= end {
        var q := (end - start) as real / MicrosPerMinute as real;
        assert q * MicrosPerMinute as real == (end - start) as real;
        assert d as real * MicrosPerMinute as real <= (end - start) as real;
        assert (end - start) as real < (d + 1) as real * MicrosPerMinute as real;
      }
    }
    d
  }

  /** The student's session that is still running. */
  predicate IsOpenFor(s: StudySession, studentId: int) {
    s.studentId == studentId && s.endTime.None?
  }

  /** The open session that `.first()` returns, taken in table order. */
  function FirstOpen(sessions: seq<StudySession>, studentId: int): (r: Option<nat>)
    ensures r.Some? ==> r.value < |sessions| && IsOpenFor(sessions[r.value], studentId)
    ensures r.Some? ==> forall j :: 0 <= j < r.value ==> !IsOpenFor(sessions[j], studentId)
    ensures r.None? <==> forall j :: 0 <= j < |sessions| ==> !IsOpenFor(sessions[j], studentId)
  {
    if sessions == [] then None
    else if IsOpenFor(sessions[0], studentId) then Some(0)
    else
      var rest := FirstOpen(sessions[1..], studentId);
      assert forall j :: 1 <= j < |sessions| ==> sessions[j] == sessions[1..][j - 1];
      match rest
      case None => None
      case Some(k) => Some(k + 1)
  }

  /** The invariant the start check keeps: no student has two sessions running. */
  predicate AtMostOneOpen(sessions: seq<StudySession>) {
    forall i, j :: 0 <= i < j < |sessions| && sessions[i].endTime.None? && sessions[j].endTime.None? ==>
      sessions[i].studentId != sessions[j].studentId
  }

  /** `start_study_session`: refused with 400 while the student has a session running, otherwise
      a new session starting now is appended. */
  function Start(sessions: seq<StudySession>, studentId: int, activityType: Option<string>, now: int, newId: int)
    : (r: (Response<StudySession>, seq<StudySession>))
    ensures r.0.Fail? <==> FirstOpen(sessions, studentId).Some?
    ensures r.0.Fail? ==> r.0 == Fail(400, "Study session already active") && r.1 == sessions
    ensures r.0.Ok? ==> r.1 == sessions + [r.0.value] && IsOpenFor(r.0.value, studentId) &&
                        r.0.value.startTime == now && r.0.value.durationMinutes.None? &&
                        r.0.value.activityType == activityType && r.0.value.id == newId
  {
    if FirstOpen(sessions, studentId).Some? then (Fail(400, "Study session already active"), sessions)
    else
      var s := StudySession(newId, studentId, now, None, None, activityType);
      (Ok(s), sessions + [s])
  }

  /** `end_study_session` up to its commit: refused with 404 when nothing is running, otherwise the
      running session is closed now with its whole minutes, which are returned. */
  function End(sessions: seq<StudySession>, studentId: int, now: int): (r: (Response<int>, seq<StudySession>))
    ensures r.0.Fail? <==> FirstOpen(sessions, studentId).None?
    ensures r.0.Fail? ==> r.0 == Fail(404, "No active study session") && r.1 == sessions
    ensures r.0.Ok? ==> var k := FirstOpen(sessions, studentId).value;
                        |r.1| == |sessions| &&
                        (forall j :: 0 <= j < |sessions| && j != k ==> r.1[j] == sessions[j]) &&
                        r.1[k] == sessions[k].(endTime := Some(now), durationMinutes := Some(r.0.value)) &&
                        r.0.value == MinutesBetween(sessions[k].startTime, now)
  {
    match FirstOpen(sessions, studentId)
    case None => (Fail(404, "No active study session"), sessions)
    case Some(k) =>
      var d := MinutesBetween(sessions[k].startTime, now);
      (Ok(d), sessions[k := sessions[k].(endTime := Some(now), durationMinutes := Some(d))])
  }

  /** `get_active_study_session`. */
  function Active(sessions: seq<StudySession>, studentId: int): (r: Response<StudySession>)
    ensures r.Fail? <==> forall j :: 0 <= j < |sessions| ==> !IsOpenFor(sessions[j], studentId)
    ensures r.Fail? ==> r == Fail(404, "No active study session")
    ensures r.Ok? ==> r.value in sessions && IsOpenFor(r.value, studentId)
  {
    match FirstOpen(sessions, studentId)
    case None => Fail(404, "No active study session")
    case Some(k) => Ok(sessions[k])
  }

  /** `SUM(duration_minutes)` over the student's closed sessions, `or 0` when there are none. */
  function TotalMinutes(sessions: seq<StudySession>, studentId: int): int {
    if sessions == [] then 0
    else
      var s := sessions[|sessions| - 1];
      TotalMinutes(sessions[..|sessions| - 1], studentId) +
        if s.studentId == studentId && s.durationMinutes.Some? then s.durationMinutes.value else 0
  }

  /** `int(total_minutes / 60)`. */
  function StudyHours(sessions: seq<StudySession>, studentId: int): int {
    Trunc(TotalMinutes(sessions, studentId) as real / 60.0)
  }

  /** `get_study_hours`: the stored whole hours and the same in minutes; zero without a record. */
  function StudyHoursReport(records: map<int, ProgressRecord>, studentId: int): (r: (int, int))
    ensures r.1 == r.0 * 60
    ensures studentId !in records ==> r == (0, 0)
    ensures studentId in records ==> r.0 == records[studentId].totalHours
  {
    if studentId !in records then (0, 0)
    else (records[studentId].totalHours, records[studentId].totalHours * 60)
  }

  /** The study sessions table. */
  class StudyLog {
    var sessions: seq<StudySession>
    var nextId: int

    constructor ()
      ensures sessions == [] && nextId == 1
    {
      sessions := [];
      nextId := 1;
    }

    method StartSession(studentId: int, activityType: Option<string>, now: int) returns (r: Response<StudySession>)
      modifies this
      ensures (r, sessions) == Start(old(sessions), studentId, activityType, now, old(nextId))
      ensures nextId == if r.Ok? then old(nextId) + 1 else old(nextId)
    {
      if FirstOpen(sessions, studentId).Some? {
        return Fail(400, "Study session already active");
      }
      var session := StudySession(nextId, studentId, now, None, None, activityType);
      sessions := sessions + [session];
      nextId := nextId + 1;
      r := Ok(session);
    }

    method EndSession(studentId: int, now: int) returns (r: Response<int>)
      modifies this
      ensures (r, sessions) == End(old(sessions), studentId, now) && nextId == old(nextId)
    {
      var active := FirstOpen(sessions, studentId);
      if active.None? {
        return Fail(404, "No active study session");
      }
      var k := active.value;
      var duration := MinutesBetween(sessions[k].startTime, now);
      sessions := sessions[k := sessions[k].(endTime := Some(now), durationMinutes := Some(duration))];
      r := Ok(duration);
    }
  }

  /** `update_study_hours` as intended: the student's whole hours, truncated, in the progress record. */
  method UpdateStudyHours(store: ProgressStore, studentId: int, sessions: seq<StudySession>)
    modifies store
    ensures var created := WithRecord(old(store.records), studentId);
            store.records == created[studentId := created[studentId].(totalHours := StudyHours(sessions, studentId))]
  {
    var totalMinutes := TotalMinutes(sessions, studentId);
    var progress := store.GetOrCreate(studentId);
    store.Save(studentId, progress.(totalHours := Trunc(totalMinutes as real / 60.0)));
  }

  /** `end_study_session` as written: `update_study_hours` reads `db.func`, which a database
      session does not have, so after the close is committed the request fails with 500 and the
      progress record is left as it was. */
  method EndStudySessionAsWritten(log: StudyLog, store: ProgressStore, studentId: int, now: int)
    returns (r: Response<int>)
    modifies log
    ensures log.sessions == End(old(log.sessions), studentId, now).1
    ensures r == if End(old(log.sessions), studentId, now).0.Fail? then Fail(404, "No active study session")
                 else Fail(500, "Internal Server Error")
  {
    r := log.EndSession(studentId, now);
    if r.Ok? {
      r := Fail(500, "Internal Server Error");
    }
  }

  /** `end_study_session` with the sum taken as intended: the session is closed, the study hours
      are brought up to date and the whole minutes of the session are returned. */
  method EndStudySession(log: StudyLog, store: ProgressStore, studentId: int, now: int)
    returns (r: Response<int>)
    modifies log, store
    ensures (r, log.sessions) == End(old(log.sessions), studentId, now)
    ensures r.Fail? ==> store.records == old(store.records)
    ensures r.Ok? ==> var created := WithRecord(old(store.records), studentId);
                      store.records == created[studentId := created[studentId].(totalHours := StudyHours(log.sessions, studentId))]
  {
    r := log.EndSession(studentId, now);
    if r.Ok? {
      UpdateStudyHours(store, studentId, log.sessions);
    }
  }

  // -------- properties --------

  /** While no student has two sessions running, the running session of a student is the one
      `.first()` finds, whatever the table order. */
  lemma OpenUnique(sessions: seq<StudySession>, studentId: int, k: nat)
    requires AtMostOneOpen(sessions) && k < |sessions| && IsOpenFor(sessions[k], studentId)
    ensures FirstOpen(sessions, studentId) == Some(k)
  {
  }

  lemma StartKeepsOneOpen(sessions: seq<StudySession>, studentId: int, activityType: Option<string>, now: int, newId: int)
    requires AtMostOneOpen(sessions)
    ensures AtMostOneOpen(Start(sessions, studentId, activityType, now, newId).1)
  {
    var r := Start(sessions, studentId, activityType, now, newId);
    if r.0.Ok? {
      var t := r.1;
      forall i, j | 0 <= i < j < |t| && t[i].endTime.None? && t[j].endTime.None?
        ensures t[i].studentId != t[j].studentId
      {
        if j == |sessions| {
          assert t[i] == sessions[i];
          assert !IsOpenFor(sessions[i], studentId);
        } else {
          assert t[i] == sessions[i] && t[j] == sessions[j];
        }
      }
    }
  }

  lemma EndKeepsOneOpen(sessions: seq<StudySession>, studentId: int, now: int)
    requires AtMostOneOpen(sessions)
    ensures AtMostOneOpen(End(sessions, studentId, now).1)
  {
  }

  /** Ending a session leaves the student with nothing running, so a second end is refused. */
  lemma EndClosesTheSession(sessions: seq<StudySession>, studentId: int, now: int)
    requires AtMostOneOpen(sessions)
    ensures FirstOpen(End(sessions, studentId, now).1, studentId).None?
    ensures End(End(sessions, studentId, now).1, studentId, now).0 == Fail(404, "No active study session")
  {
    var r := End(sessions, studentId, now);
    if r.0.Ok? {
      var k := FirstOpen(sessions, studentId).value;
      forall j | 0 <= j < |r.1| ensures !IsOpenFor(r.1[j], studentId) {
        if j != k {
          assert r.1[j] == sessions[j];
          assert !IsOpenFor(sessions[j], studentId);
        }
      }
    }
  }

  /** A session started at `t0` and ended at `t1 >= t0` reports the whole minutes between them,
      and starting again while it runs is refused. */
  lemma StartThenEnd(sessions: seq<StudySession>, studentId: int, activityType: Option<string>, t0: int, t1: int, newId: int)
    requires Start(sessions, studentId, activityType, t0, newId).0.Ok? && t0 <= t1
    ensures var started := Start(sessions, studentId, activityType, t0, newId).1;
            Start(started, studentId, activityType, t1, newId + 1).0 == Fail(400, "Study session already active") &&
            End(started, studentId, t1).0 == Ok(MinutesBetween(t0, t1))
  {
    var started := Start(sessions, studentId, activityType, t0, newId).1;
    assert IsOpenFor(started[|sessions|], studentId);
    assert forall j :: 0 <= j < |sessions| ==> started[j] == sessions[j];
    assert FirstOpen(started, studentId) == Some(|sessions|);
  }

  lemma {:induction false} TotalMinutesNonNegative(sessions: seq<StudySession>, studentId: int)
    requires forall j :: 0 <= j < |sessions| && sessions[j].durationMinutes.Some? ==> sessions[j].durationMinutes.value >= 0
    ensures TotalMinutes(sessions, studentId) >= 0
  {
    if sessions != [] {
      TotalMinutesNonNegative(sessions[..|sessions| - 1], studentId);
    }
  }

  /** With no negative durations the stored hours are the whole hours of the summed minutes. */
  lemma StudyHoursFloor(sessions: seq<StudySession>, studentId: int)
    requires forall j :: 0 <= j < |sessions| && sessions[j].durationMinutes.Some? ==> sessions[j].durationMinutes.value >= 0
    ensures var h := StudyHours(sessions, studentId);
            h >= 0 && h * 60 <= TotalMinutes(sessions, studentId) < (h + 1) * 60
  {
    TotalMinutesNonNegative(sessions, studentId);
  }

  /** Closing a session adds its minutes to the student's total and leaves other students' totals. */
  lemma {:induction false} EndAddsMinutes(sessions: seq<StudySession>, k: nat, now: int, d: int, who: int)
    requires k < |sessions| && sessions[k].durationMinutes.None?
    ensures var closed := sessions[k := sessions[k].(endTime := Some(now), durationMinutes := Some(d))];
            TotalMinutes(closed, who) ==
              TotalMinutes(sessions, who) + if sessions[k].studentId == who then d else 0
  {
    var closed := sessions[k := sessions[k].(endTime := Some(now), durationMinutes := Some(d))];
    var n := |sessions| - 1;
    assert closed[..n] == if k == n then sessions[..n] else sessions[..n][k := sessions[k].(endTime := Some(now), durationMinutes := Some(d))];
    if k < n {
      EndAddsMinutes(sessions[..n], k, now, d, who);
    }
  }

  /** The sum as written never reaches the progress record: after a one-hour session the hours
      stay at their initial 0, where the intended update stores 1. */
  lemma StudyHoursNeverStored()
    ensures var s := StudySession(1, 7, 0, None, None, Some("studying"));
            var ended := End([s], 7, 60 * MicrosPerMinute);
            ended.0 == Ok(60) && StudyHours(ended.1, 7) == 1 &&
            WithRecord(map[], 7)[7].totalHours == 0
  {
    var s := StudySession(1, 7, 0, None, None, Some("studying"));
    var ended := End([s], 7, 60 * MicrosPerMinute);
    assert FirstOpen([s], 7) == Some(0);
    assert ended.1 == [s.(endTime := Some(60 * MicrosPerMinute), durationMinutes := Some(60))];
    assert ended.1[..0] == [];
    assert TotalMinutes(ended.1, 7) == 60;
  }
}
