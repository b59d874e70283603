/** The database helpers the routers share: the password prefix that bcrypt sees, booking a
    tutoring session with a meeting link, the status update of a booking, and recomputing a
    student's progress from their bookings and graded submissions. The database is a set of
    values passed in; bcrypt itself is an ideal hash, represented by its input. */
module Crud {
  import opened Seqs
  import opened Text
  import opened ProgressRecords

  // -------- passwords --------

  /** bcrypt reads at most 72 bytes; the helpers cut the password at 72 characters. */
  const BcryptLimit: nat := 72

  /** The text `get_password_hash` and `verify_password` hand to bcrypt. */
  function HashInput(password: string): (p: string)
    ensures |p| == Min(|password|, BcryptLimit)
    ensures IsPrefix(p, password)
    ensures |password| <= BcryptLimit ==> p == password
  {
    if |password| > BcryptLimit then password[..BcryptLimit] else password
  }

  /** A stored hash, with bcrypt modelled as an injective function of its input. */
  datatype PasswordHash = PasswordHash(input: string)

  function PasswordHashOf(password: string): PasswordHash {
    PasswordHash(HashInput(password))
  }

  /** `verify_password` against an ideal hash. */
  predicate VerifyPassword(plain: string, hashed: PasswordHash) {
    HashInput(plain) == hashed.input
  }

  /** Every password verifies against its own hash. */
  lemma HashThenVerify(password: string)
    ensures VerifyPassword(password, PasswordHashOf(password))
  {
  }

  /** A login succeeds exactly when both passwords agree on their first 72 characters (and are
      equally long when one of them is shorter than that). */
  lemma VerifyIffSamePrefix(plain: string, password: string)
    ensures VerifyPassword(plain, PasswordHashOf(password)) <==>
              (if |plain| >= BcryptLimit && |password| >= BcryptLimit
               then plain[..BcryptLimit] == password[..BcryptLimit]
               else plain == password)
  {
  }

  /** So anything after the 72nd character is ignored. */
  lemma LongPasswordTailIgnored(password: string, tail: string)
    requires |password| == BcryptLimit && tail != []
    ensures VerifyPassword(password + tail, PasswordHashOf(password))
    ensures password + tail != password
  {
    assert (password + tail)[..BcryptLimit] == password;
  }

  // -------- bookings --------

  datatype SessionBooking = SessionBooking(
    id: int, studentId: int, tutorId: int, start: int, end: int, topic: Option<string>,
    status: string, zoomLink: string)

  /** The status column's default. */
  const Scheduled := "scheduled"
  const Completed := "completed"
  const ZoomPrefix := "https://zoom.us/j/"
  const MeetingIdDigits: nat := 11

  /** The meeting id made of the digits `random.choices(string.digits, k=11)` drew; the random
      draws are a parameter. */
  function MeetingId(draws: seq<nat>): (m: string)
    requires forall i :: 0 <= i < |draws| ==> draws[i] < 10
    ensures |m| == |draws|
    ensures forall i :: 0 <= i < |m| ==> IsDigit(m[i]) && m[i] as int - '0' as int == draws[i]
  {
    if draws == [] then [] else [DigitChar(draws[0])] + MeetingId(draws[1..])
  }

  /** `create_session`'s link: the Zoom prefix followed by exactly eleven digits. */
  function ZoomLink(draws: seq<nat>): (link: string)
    requires |draws| == MeetingIdDigits && forall i :: 0 <= i < |draws| ==> draws[i] < 10
    ensures |link| == |ZoomPrefix| + MeetingIdDigits
    ensures IsPrefix(ZoomPrefix, link)
    ensures IsDigits(link[|ZoomPrefix|..])
  {
    var m := MeetingId(draws);
    assert (ZoomPrefix + m)[|ZoomPrefix|..] == m;
    ZoomPrefix + m
  }

  /** The meeting id can be read back from the link: it is the draws in order. */
  lemma ZoomLinkRoundTrip(draws: seq<nat>)
    requires |draws| == MeetingIdDigits && forall i :: 0 <= i < |draws| ==> draws[i] < 10
    ensures forall i :: 0 <= i < MeetingIdDigits ==>
              ZoomLink(draws)[|ZoomPrefix| + i] as int - '0' as int == draws[i]
  {
    var m := MeetingId(draws);
    assert ZoomLink(draws) == ZoomPrefix + m;
    forall i | 0 <= i < MeetingIdDigits
      ensures ZoomLink(draws)[|ZoomPrefix| + i] as int - '0' as int == draws[i]
    {
      assert ZoomLink(draws)[|ZoomPrefix| + i] == m[i];
    }
  }

  /** `create_session`: a new booking keeps the requested fields, starts out scheduled and
      carries a fresh meeting link. */
  function CreateSession(id: int, studentId: int, tutorId: int, start: int, end: int, topic: Option<string>, draws: seq<nat>): (s: SessionBooking)
    requires |draws| == MeetingIdDigits && forall i :: 0 <= i < |draws| ==> draws[i] < 10
    ensures s.studentId == studentId && s.tutorId == tutorId && s.start == start && s.end == end && s.topic == topic
    ensures s.status == Scheduled
    ensures IsPrefix(ZoomPrefix, s.zoomLink) && |s.zoomLink| == |ZoomPrefix| + MeetingIdDigits
    ensures IsDigits(s.zoomLink[|ZoomPrefix|..])
  {
    SessionBooking(id, studentId, tutorId, start, end, topic, Scheduled, ZoomLink(draws))
  }

  /** `k` is the position of the first booking with the id, the one `.first()` returns. */
  predicate IsFirstWithId(sessions: seq<SessionBooking>, sessionId: int, k: int) {
    0 <= k < |sessions| && sessions[k].id == sessionId &&
    forall j :: 0 <= j < k ==> sessions[j].id != sessionId
  }

  /** The first booking with the id is the head, or the first one with the id in the tail. */
  lemma FirstWithIdStep(sessions: seq<SessionBooking>, sessionId: int)
    requires sessions != []
    ensures sessions[0].id == sessionId ==> forall k :: IsFirstWithId(sessions, sessionId, k) ==> k == 0
    ensures sessions[0].id != sessionId ==>
              forall k :: IsFirstWithId(sessions, sessionId, k) ==> k > 0 && IsFirstWithId(sessions[1..], sessionId, k - 1)
  {
    forall k | IsFirstWithId(sessions, sessionId, k) && sessions[0].id != sessionId
      ensures k > 0 && IsFirstWithId(sessions[1..], sessionId, k - 1)
    {
      forall j | 0 <= j < k - 1 ensures sessions[1..][j].id != sessionId {
        assert sessions[1..][j] == sessions[j + 1];
      }
    }
  }

  /** `update_session_status`: the booking with that id, when there is one, gets the new status;
      an unknown id changes nothing and is reported as `None`. */
  function UpdateSessionStatus(sessions: seq<SessionBooking>, sessionId: int, status: string): (r: (seq<SessionBooking>, Option<SessionBooking>))
    ensures |r.0| == |sessions|
    ensures r.1.None? <==> forall i :: 0 <= i < |sessions| ==> sessions[i].id != sessionId
    ensures r.1.Some? ==> r.1.value.id == sessionId && r.1.value.status == status
    ensures forall k :: IsFirstWithId(sessions, sessionId, k) ==> r.1 == Some(r.0[k])
    ensures forall i :: 0 <= i < |sessions| ==>
              r.0[i] == if sessions[i].id == sessionId then sessions[i].(status := status) else sessions[i]
  {
    if sessions == [] then ([], None)
    else
      var (rest, found) := UpdateSessionStatus(sessions[1..], sessionId, status);
      assert forall k :: 0 < k < |sessions| ==> sessions[k] == sessions[1..][k - 1];
      FirstWithIdStep(sessions, sessionId);
      if sessions[0].id == sessionId then
        var head := sessions[0].(status := status);
        ([head] + rest, Some(head))
      else
        ([sessions[0]] + rest, found)
  }

  // -------- progress --------

  /** The count query of `update_progress`: the student's bookings whose status is "completed". */
  function CompletedOf(sessions: seq<SessionBooking>, studentId: int): seq<SessionBooking> {
    Filter(sessions, (s: SessionBooking) => s.studentId == studentId && s.status == Completed)
  }

  /** With unique ids, updating the booking at `i` replaces that booking alone. */
  lemma UpdatedAtUniqueId(sessions: seq<SessionBooking>, i: nat, status: string)
    requires i < |sessions|
    requires forall j :: 0 <= j < |sessions| && j != i ==> sessions[j].id != sessions[i].id
    ensures UpdateSessionStatus(sessions, sessions[i].id, status).0 ==
            sessions[..i] + [sessions[i].(status := status)] + sessions[i + 1..]
  {
    var after := UpdateSessionStatus(sessions, sessions[i].id, status).0;
    var spliced := sessions[..i] + [sessions[i].(status := status)] + sessions[i + 1..];
    forall j | 0 <= j < |sessions| ensures after[j] == spliced[j] {
      if j < i { assert spliced[j] == sessions[j]; }
      else if j > i { assert spliced[j] == sessions[j]; }
    }
  }

  /** Completing a scheduled booking of the student adds exactly one to their completed count. */
  lemma CompletingCountsOnce(sessions: seq<SessionBooking>, i: nat, studentId: int)
    requires i < |sessions| && sessions[i].studentId == studentId && sessions[i].status != Completed
    requires forall j :: 0 <= j < |sessions| && j != i ==> sessions[j].id != sessions[i].id
    ensures |CompletedOf(UpdateSessionStatus(sessions, sessions[i].id, Completed).0, studentId)| ==
            |CompletedOf(sessions, studentId)| + 1
  {
    var p := (s: SessionBooking) => s.studentId == studentId && s.status == Completed;
    var after := UpdateSessionStatus(sessions, sessions[i].id, Completed).0;
    UpdatedAtUniqueId(sessions, i, Completed);
    assert sessions == sessions[..i] + [sessions[i]] + sessions[i + 1..];
    FilterConcat(sessions[..i] + [sessions[i]], sessions[i + 1..], p);
    FilterConcat(sessions[..i], [sessions[i]], p);
    FilterConcat(sessions[..i] + [after[i]], sessions[i + 1..], p);
    FilterConcat(sessions[..i], [after[i]], p);
    FilterSingle(sessions[i], p);
    FilterSingle(after[i], p);
  }

  /** Completing a booking that is already completed leaves every booking, and so the count, as
      it was. */
  lemma CompletingAgainUnchanged(sessions: seq<SessionBooking>, i: nat, studentId: int)
    requires i < |sessions| && sessions[i].status == Completed
    requires forall j :: 0 <= j < |sessions| && j != i ==> sessions[j].id != sessions[i].id
    ensures UpdateSessionStatus(sessions, sessions[i].id, Completed).0 == sessions
    ensures |CompletedOf(UpdateSessionStatus(sessions, sessions[i].id, Completed).0, studentId)| ==
            |CompletedOf(sessions, studentId)|
  {
    var r := UpdateSessionStatus(sessions, sessions[i].id, Completed).0;
    assert sessions[i].(status := Completed) == sessions[i];
    assert r == sessions;
  }

  /** A graded submission: `grade` is free text, or missing. */
  datatype Submission = Submission(studentId: int, grade: Option<string>)

  /** `[int(s.grade) for s in submissions if s.grade and s.grade.isdigit()]`. */
  function DigitGrades(grades: seq<Option<string>>): (r: seq<nat>)
    ensures |r| <= |grades|
    ensures r == [] <==> forall i :: 0 <= i < |grades| ==> !(grades[i].Some? && IsDigits(grades[i].value))
  {
    if grades == [] then []
    else
      var rest := DigitGrades(grades[1..]);
      var g := grades[0];
      assert forall i :: 1 <= i < |grades| ==> grades[i] == grades[1..][i - 1];
      if g.Some? && IsDigits(g.value) then [DecimalValue(g.value)] + rest else rest
  }

  /** The grades of one student's submissions, the ones with no grade dropped by the query. */
  function GradesOf(submissions: seq<Submission>, studentId: int): seq<Option<string>> {
    if submissions == [] then []
    else
      (if submissions[0].studentId == studentId && submissions[0].grade.Some? then [submissions[0].grade] else [])
      + GradesOf(submissions[1..], studentId)
  }

  function SumNat(xs: seq<nat>): nat {
    if xs == [] then 0 else xs[0] + SumNat(xs[1..])
  }

  /** `sum(grades) // len(grades)`, or `None` when no grade is a digit string. */
  function FloorAverage(grades: seq<Option<string>>): (r: Option<int>)
    ensures r.None? <==> DigitGrades(grades) == []
    ensures r.Some? ==> var g := DigitGrades(grades);
              r.value * |g| <= SumNat(g) < (r.value + 1) * |g|
  {
    var g := DigitGrades(grades);
    if g == [] then None else FloorDivBounds(SumNat(g), |g|); Some(SumNat(g) / |g|)
  }

  lemma FloorDivBounds(s: nat, n: nat)
    requires n > 0
    ensures (s / n) * n <= s < (s / n + 1) * n
  {
  }

  lemma {:induction false} SumNatBounds(xs: seq<nat>, hi: nat)
    requires forall i :: 0 <= i < |xs| ==> xs[i] <= hi
    ensures SumNat(xs) <= |xs| * hi
  {
    if xs != [] {
      SumNatBounds(xs[1..], hi);
      assert |xs| * hi == hi + |xs[1..]| * hi;
    }
  }

  /** The floor of the mean is at most the largest grade taken. */
  lemma FloorAverageAtMost(grades: seq<Option<string>>, hi: nat)
    requires forall i :: 0 <= i < |DigitGrades(grades)| ==> DigitGrades(grades)[i] <= hi
    ensures FloorAverage(grades).Some? ==> FloorAverage(grades).value <= hi
  {
    var g := DigitGrades(grades);
    if g != [] {
      SumNatBounds(g, hi);
      var a := FloorAverage(grades).value;
      assert a * |g| <= |g| * hi;
      CancelFactor(a, hi, |g|);
    }
  }

  lemma CancelFactor(a: int, b: int, n: int)
    requires n > 0 && a * n <= n * b
    ensures a <= b
  {
  }

  /** Letter grades and blanks count for nothing; "90" and "81" average to 85. */
  lemma FloorAverageExample()
    ensures FloorAverage([Some("A"), Some(""), Some("90"), Some("81")]) == Some(85)
  {
    assert !IsDigit("A"[0]);
    assert |""| == 0;
    assert IsDigits("90") && DecimalValue("90") == 90;
    assert IsDigits("81") && DecimalValue("81") == 81;
    assert DigitGrades([Some("81")]) == [81];
    assert DigitGrades([Some("90"), Some("81")]) == [90, 81];
    assert DigitGrades([Some(""), Some("90"), Some("81")]) == [90, 81];
  }

  /** `update_progress`: the student's record (created when missing) gets the completed count and
      the floor average; the hours it holds are kept. */
  method UpdateProgress(store: ProgressStore, studentId: int, sessions: seq<SessionBooking>, submissions: seq<Submission>)
    returns (prog: ProgressRecord)
    modifies store
    ensures prog == WithRecord(old(store.records), studentId)[studentId].(
              totalSessions := |CompletedOf(sessions, studentId)|,
              averageGrade := FloorAverage(GradesOf(submissions, studentId)))
    ensures store.records == WithRecord(old(store.records), studentId)[studentId := prog]
  {
    prog := store.GetOrCreate(studentId);
    var completed := |CompletedOf(sessions, studentId)|;
    var avg := FloorAverage(GradesOf(submissions, studentId));
    prog := prog.(totalSessions := completed, averageGrade := avg);
    store.Save(studentId, prog);
  }

  /** Recomputing twice gives the same record as recomputing once. */
  lemma UpdateProgressIdempotent(records: map<int, ProgressRecord>, studentId: int, sessions: seq<SessionBooking>, submissions: seq<Submission>)
    ensures var once := WithRecord(records, studentId)[studentId].(
              totalSessions := |CompletedOf(sessions, studentId)|,
              averageGrade := FloorAverage(GradesOf(submissions, studentId)));
            var r1 := WithRecord(records, studentId)[studentId := once];
            WithRecord(r1, studentId)[studentId].(
              totalSessions := |CompletedOf(sessions, studentId)|,
              averageGrade := FloorAverage(GradesOf(submissions, studentId))) == once
  {
  }
}
