/** The session catalog and the registration ledger
    (backend/src/session/session.service.ts).

    The store's `classSession` table is a sequence whose position is the
    session id; the `sessionRegistration` table is a set of (student, session)
    pairs, so its unique key is built in. Times are integers: a day is its day
    number, a `HH:MM` time is minutes after midnight, and an instant is
    milliseconds since the epoch. */
module Sessions {
  import opened Wrappers
  import opened Seqs

  /** A calendar day as its day number. The `YYYY-MM-DD` text the store keeps
      and this number determine each other, and the lexicographic order of the
      text is the numeric order of the number. */
  type Date = int
  type SessionId = nat
  type StudentId = nat
  type ClassId = string

  const MsPerMinute: int := 60 * 1000
  const MsPerDay: int := 24 * 60 * MsPerMinute
  /** Registration closes this long (two hours) before a session starts. */
  const RegistrationLeadMs: int := 2 * 60 * 60 * 1000
  /** At most this many non-deleted sessions may be created on one date. */
  const MaxSessionsPerDay: nat := 3

  /** The instant at which a session on `date` starting at minute `startTime` begins. */
  function StartInstant(date: Date, startTime: nat): int {
    date * MsPerDay + startTime * MsPerMinute
  }

  datatype ClassSession = ClassSession(
    id: SessionId,
    date: Date,
    name: string,
    startTime: nat,
    endTime: nat,
    registrationDeadline: int,
    isDeleted: bool,
    trainingClassId: Option<ClassId>)

  /** The fields an administrator supplies to create or update a session. */
  datatype SessionInput = SessionInput(date: Date, name: string, startTime: nat, endTime: nat)

  datatype Registration = Registration(studentId: StudentId, sessionId: SessionId)

  /** Each exception the service raises, by cause. */
  datatype SessionFailure =
    | SessionNotFound     // NotFoundException
    | DailyLimitReached   // BadRequestException
    | RegistrationClosed  // BadRequestException
    | AlreadyRegistered   // ConflictException
    | StudentNotFound     // NotFoundException
    | OnePerDayTaken      // ConflictException

  /** The session table is keyed by position: the session at index `i` has id `i`. */
  predicate KeyedByIndex(sessions: seq<ClassSession>) {
    forall i :: 0 <= i < |sessions| ==> sessions[i].id == i
  }

  function StartKey(s: ClassSession): int { s.startTime }

  /** The non-deleted sessions dated `d`, in table order. */
  function ActiveOn(sessions: seq<ClassSession>, d: Date): (r: seq<ClassSession>)
    ensures forall s :: s in r <==> s in sessions && s.date == d && !s.isDeleted
    ensures |r| <= |sessions|
  {
    if sessions == [] then []
    else
      var last := sessions[|sessions| - 1];
      assert sessions == sessions[..|sessions| - 1] + [last];
      ActiveOn(sessions[..|sessions| - 1], d) + (if last.date == d && !last.isDeleted then [last] else [])
  }

  /** Sessions of a table keyed by position are all different, and so are the
      ones active on a date. */
  lemma {:induction false} ActiveOnDistinct(sessions: seq<ClassSession>, d: Date)
    requires KeyedByIndex(sessions)
    ensures Distinct(ActiveOn(sessions, d))
  {
    if sessions != [] {
      var n := |sessions| - 1;
      var last := sessions[n];
      var earlier := ActiveOn(sessions[..n], d);
      ActiveOnDistinct(sessions[..n], d);
      if last.date == d && !last.isDeleted {
        forall k | 0 <= k < |earlier|
          ensures earlier[k] != last
        {
          assert earlier[k] in sessions[..n];
          var m :| 0 <= m < n && sessions[..n][m] == earlier[k];
          assert earlier[k].id == m;
        }
        var r := earlier + [last];
        forall i, j | 0 <= i < j < |r|
          ensures r[i] != r[j]
        {
          if j == |earlier| {
            assert r[i] == earlier[i];
          }
        }
      }
    }
  }

  lemma ActiveOnAppend(sessions: seq<ClassSession>, s: ClassSession, d: Date)
    ensures ActiveOn(sessions + [s], d)
         == ActiveOn(sessions, d) + (if s.date == d && !s.isDeleted then [s] else [])
  {
    assert (sessions + [s])[..|sessions|] == sessions;
  }

  /** Replacing one session by one that is not active on `d` (unless the old one
      was) does not add to the sessions active on `d`. */
  lemma {:induction false} ActiveOnReplace(sessions: seq<ClassSession>, i: nat, x: ClassSession, d: Date)
    requires i < |sessions|
    requires x.date == d && !x.isDeleted ==> sessions[i].date == d && !sessions[i].isDeleted
    ensures |ActiveOn(sessions[i := x], d)| <= |ActiveOn(sessions, d)|
  {
    ActiveCountIsLength(sessions, d);
    ActiveCountIsLength(sessions[i := x], d);
    ActiveCountReplace(sessions, i, x, d);
  }

  /** The number of non-deleted sessions dated `d`. */
  function ActiveCount(sessions: seq<ClassSession>, d: Date): nat {
    if sessions == [] then 0
    else
      var last := sessions[|sessions| - 1];
      ActiveCount(sessions[..|sessions| - 1], d) + (if last.date == d && !last.isDeleted then 1 else 0)
  }

  lemma {:induction false} ActiveCountIsLength(sessions: seq<ClassSession>, d: Date)
    ensures |ActiveOn(sessions, d)| == ActiveCount(sessions, d)
  {
    if sessions != [] {
      ActiveCountIsLength(sessions[..|sessions| - 1], d);
    }
  }

  lemma {:induction false} ActiveCountReplace(sessions: seq<ClassSession>, i: nat, x: ClassSession, d: Date)
    requires i < |sessions|
    requires x.date == d && !x.isDeleted ==> sessions[i].date == d && !sessions[i].isDeleted
    ensures ActiveCount(sessions[i := x], d) <= ActiveCount(sessions, d)
  {
    var n := |sessions| - 1;
    var t := sessions[i := x];
    if i == n {
      assert t[..n] == sessions[..n];
    } else {
      assert t[..n] == sessions[..n][i := x];
      ActiveCountReplace(sessions[..n], i, x, d);
    }
  }

  /** Every date holds at most `MaxSessionsPerDay` non-deleted sessions. */
  ghost predicate DailyLimitHolds(sessions: seq<ClassSession>) {
    forall d :: |ActiveOn(sessions, d)| <= MaxSessionsPerDay
  }

  /** No student holds two registrations whose sessions share a date, counting
      soft-deleted sessions too. */
  ghost predicate OneRegistrationPerDate(sessions: seq<ClassSession>, regs: set<Registration>) {
    forall r1, r2 ::
      r1 in regs && r2 in regs && r1.studentId == r2.studentId &&
      r1.sessionId < |sessions| && r2.sessionId < |sessions| &&
      sessions[r1.sessionId].date == sessions[r2.sessionId].date
      ==> r1 == r2
  }

  /** The student already holds a registration for some session dated `d`. */
  predicate HasRegistrationOn(sessions: seq<ClassSession>, regs: set<Registration>, studentId: StudentId, d: Date) {
    exists reg :: reg in regs && reg.studentId == studentId &&
      reg.sessionId < |sessions| && sessions[reg.sessionId].date == d
  }

  /** `getSessionsByDate`: the non-deleted sessions dated `d`, ordered by start time. */
  function SessionsByDate(sessions: seq<ClassSession>, d: Date): (r: seq<ClassSession>)
    ensures forall s :: s in r <==> s in sessions && s.date == d && !s.isDeleted
    ensures multiset(r) == multiset(ActiveOn(sessions, d))
    ensures SortedBy(r, StartKey)
  {
    SortBy(ActiveOn(sessions, d), StartKey)
  }

  /** Moving a session onto a date that already holds three non-deleted
      sessions, as `UpdateSession` allows, leaves four on that date. */
  lemma UpdateCanExceedDailyLimit()
    ensures
      var morning := ClassSession(0, 1, "Ca 1", 480, 600, StartInstant(1, 480) - RegistrationLeadMs, false, None);
      var sessions := [morning, morning.(id := 1), morning.(id := 2), morning.(id := 3, date := 2)];
      var moved := sessions[3].(date := 1);
      && |ActiveOn(sessions, 1)| == MaxSessionsPerDay
      && |ActiveOn(sessions[3 := moved], 1)| == MaxSessionsPerDay + 1
  {
    var morning := ClassSession(0, 1, "Ca 1", 480, 600, StartInstant(1, 480) - RegistrationLeadMs, false, None);
    var sessions := [morning, morning.(id := 1), morning.(id := 2), morning.(id := 3, date := 2)];
    var moved := sessions[3].(date := 1);
    ActiveCountIsLength(sessions, 1);
    ActiveCountIsLength(sessions[3 := moved], 1);
    assert sessions[..3][..2][..1][..0] == [];
    assert (sessions[3 := moved])[..3] == sessions[..3];
    assert ActiveCount(sessions[..3][..2][..1], 1) == 1;
    assert ActiveCount(sessions[..3][..2], 1) == 2;
    assert ActiveCount(sessions[..3], 1) == 3;
  }

  /** Moving a session onto the date of another session the same student is
      registered for, as `UpdateSession` allows, leaves that student with two
      registrations on one date. */
  lemma UpdateCanBreakOneRegistrationPerDate()
    ensures
      var first := ClassSession(0, 1, "Ca 1", 480, 600, StartInstant(1, 480) - RegistrationLeadMs, false, None);
      var sessions := [first, first.(id := 1, date := 2)];
      var regs := {Registration(7, 0), Registration(7, 1)};
      && OneRegistrationPerDate(sessions, regs)
      && !OneRegistrationPerDate(sessions[1 := sessions[1].(date := 1)], regs)
  {
    var first := ClassSession(0, 1, "Ca 1", 480, 600, StartInstant(1, 480) - RegistrationLeadMs, false, None);
    var moved := [first, first.(id := 1)];
    var r1, r2 := Registration(7, 0), Registration(7, 1);
    assert moved[r1.sessionId].date == moved[r2.sessionId].date && r1 != r2;
  }

  /** The outcome of a registration request: the first check that fails, in the
      source's order, or the new registration when all pass. */
  function RegisterOutcome(sessions: seq<ClassSession>, regs: set<Registration>, studentId: StudentId,
                           sessionId: SessionId, students: set<StudentId>, now: int)
    : (r: Result<Registration, SessionFailure>)
    ensures r.Success? <==>
      && sessionId < |sessions|
      && now <= sessions[sessionId].registrationDeadline
      && Registration(studentId, sessionId) !in regs
      && studentId in students
      && !HasRegistrationOn(sessions, regs, studentId, sessions[sessionId].date)
    ensures r.Success? ==> r.value == Registration(studentId, sessionId)
    ensures r == Failure(SessionNotFound) <==> sessionId >= |sessions|
    ensures r == Failure(RegistrationClosed) <==>
      sessionId < |sessions| && now > sessions[sessionId].registrationDeadline
    ensures r == Failure(AlreadyRegistered) <==>
      && sessionId < |sessions|
      && now <= sessions[sessionId].registrationDeadline
      && Registration(studentId, sessionId) in regs
    ensures r == Failure(StudentNotFound) <==>
      && sessionId < |sessions|
      && now <= sessions[sessionId].registrationDeadline
      && Registration(studentId, sessionId) !in regs
      && studentId !in students
    ensures r == Failure(OnePerDayTaken) <==>
      && sessionId < |sessions|
      && now <= sessions[sessionId].registrationDeadline
      && Registration(studentId, sessionId) !in regs
      && studentId in students
      && HasRegistrationOn(sessions, regs, studentId, sessions[sessionId].date)
  {
    if sessionId >= |sessions| then Failure(SessionNotFound)
    else if now > sessions[sessionId].registrationDeadline then Failure(RegistrationClosed)
    else if Registration(studentId, sessionId) in regs then Failure(AlreadyRegistered)
    else if studentId !in students then Failure(StudentNotFound)
    else if HasRegistrationOn(sessions, regs, studentId, sessions[sessionId].date) then Failure(OnePerDayTaken)
    else Success(Registration(studentId, sessionId))
  }

  /** The service's two tables. */
  class SessionService {
    var sessions: seq<ClassSession>
    var registrations: set<Registration>

    ghost predicate Valid()
      reads this
    {
      && KeyedByIndex(sessions)
      && forall reg :: reg in registrations ==> reg.sessionId < |sessions|
    }

    constructor ()
      ensures Valid() && sessions == [] && registrations == {}
    {
      sessions := [];
      registrations := {};
    }

    /** `createSession`: refuses a date that already holds three non-deleted
        sessions; otherwise appends a session whose registration deadline is
        two hours before its start. */
    method CreateSession(input: SessionInput) returns (r: Result<ClassSession, SessionFailure>)
      requires Valid()
      modifies this
      ensures Valid() && registrations == old(registrations)
      ensures |ActiveOn(old(sessions), input.date)| >= MaxSessionsPerDay ==>
        r == Failure(DailyLimitReached) && sessions == old(sessions)
      ensures |ActiveOn(old(sessions), input.date)| < MaxSessionsPerDay ==>
        && r.Success?
        && sessions == old(sessions) + [r.value]
        && r.value == ClassSession(|old(sessions)|, input.date, input.name, input.startTime, input.endTime,
                                   StartInstant(input.date, input.startTime) - RegistrationLeadMs, false, None)
      ensures old(DailyLimitHolds(sessions)) ==> DailyLimitHolds(sessions)
      ensures old(OneRegistrationPerDate(sessions, registrations)) ==> OneRegistrationPerDate(sessions, registrations)
    {
      var existing := ActiveOn(sessions, input.date);
      if |existing| >= MaxSessionsPerDay {
        return Failure(DailyLimitReached);
      }
      var deadline := StartInstant(input.date, input.startTime) - RegistrationLeadMs;
      var created := ClassSession(|sessions|, input.date, input.name, input.startTime, input.endTime,
                                  deadline, false, None);
      forall d {
        ActiveOnAppend(sessions, created, d);
      }
      sessions := sessions + [created];
      r := Success(created);
    }

    /** `updateSession`: fails only for an unknown id (a soft-deleted session can
        be updated); replaces date, name and times and recomputes the deadline,
        without checking the daily limit of the new date. */
    method UpdateSession(id: SessionId, input: SessionInput) returns (r: Result<ClassSession, SessionFailure>)
      requires Valid()
      modifies this
      ensures Valid() && registrations == old(registrations)
      ensures id >= |old(sessions)| ==> r == Failure(SessionNotFound) && sessions == old(sessions)
      ensures id < |old(sessions)| ==>
        && r.Success?
        && sessions == old(sessions)[id := r.value]
        && r.value == old(sessions)[id].(date := input.date, name := input.name,
                                         startTime := input.startTime, endTime := input.endTime,
                                         registrationDeadline := StartInstant(input.date, input.startTime) - RegistrationLeadMs)
    {
      if id >= |sessions| {
        return Failure(SessionNotFound);
      }
      var deadline := StartInstant(input.date, input.startTime) - RegistrationLeadMs;
      var updated := sessions[id].(date := input.date, name := input.name,
                                   startTime := input.startTime, endTime := input.endTime,
                                   registrationDeadline := deadline);
      sessions := sessions[id := updated];
      r := Success(updated);
    }

    /** `deleteSession`: a soft delete that only sets `isDeleted`; deleting an
        already deleted session changes nothing. */
    method DeleteSession(id: SessionId) returns (r: Result<ClassSession, SessionFailure>)
      requires Valid()
      modifies this
      ensures Valid() && registrations == old(registrations)
      ensures id >= |old(sessions)| ==> r == Failure(SessionNotFound) && sessions == old(sessions)
      ensures id < |old(sessions)| ==>
        && r == Success(old(sessions)[id].(isDeleted := true))
        && sessions == old(sessions)[id := r.value]
      ensures id < |old(sessions)| && old(sessions)[id].isDeleted ==> sessions == old(sessions)
      ensures old(DailyLimitHolds(sessions)) ==> DailyLimitHolds(sessions)
      ensures old(OneRegistrationPerDate(sessions, registrations)) ==> OneRegistrationPerDate(sessions, registrations)
    {
      if id >= |sessions| {
        return Failure(SessionNotFound);
      }
      var deleted := sessions[id].(isDeleted := true);
      ghost var before := sessions;
      if sessions[id].isDeleted {
        assert sessions[id := deleted] == sessions;
      }
      sessions := sessions[id := deleted];
      r := Success(deleted);
      if DailyLimitHolds(before) {
        forall d
          ensures |ActiveOn(sessions, d)| <= MaxSessionsPerDay
        {
          ActiveOnReplace(before, id, deleted, d);
        }
      }
    }

    /** `registerForSession`: the checks run in the source's order (session
        known, deadline not passed, not already registered, student known, no
        registration on the same date) and a success adds exactly one
        registration. */
    method RegisterForSession(studentId: StudentId, sessionId: SessionId, students: set<StudentId>, now: int)
      returns (r: Result<Registration, SessionFailure>)
      requires Valid()
      modifies this
      ensures Valid() && sessions == old(sessions)
      ensures r == RegisterOutcome(sessions, old(registrations), studentId, sessionId, students, now)
      ensures r.Failure? ==> registrations == old(registrations)
      ensures r.Success? ==> r.value !in old(registrations) && registrations == old(registrations) + {r.value}
      ensures old(OneRegistrationPerDate(sessions, registrations)) ==> OneRegistrationPerDate(sessions, registrations)
    {
      if sessionId >= |sessions| {
        return Failure(SessionNotFound);
      }
      var session := sessions[sessionId];
      if now > session.registrationDeadline {
        return Failure(RegistrationClosed);
      }
      var reg := Registration(studentId, sessionId);
      if reg in registrations {
        return Failure(AlreadyRegistered);
      }
      if studentId !in students {
        return Failure(StudentNotFound);
      }
      if HasRegistrationOn(sessions, registrations, studentId, session.date) {
        return Failure(OnePerDayTaken);
      }
      registrations := registrations + {reg};
      r := Success(reg);
    }
  }
}
