/** The student endpoints of backend/src/session/session.controller.ts.

    Both endpoints first resolve the caller's student profile from the user id
    the identity layer supplies, and fail with a plain error when there is none.
    The administrator endpoints only forward to the service; in particular the
    `classId` query parameter of the listing is dropped, since
    `getSessionsByDate` takes a date only. */
module SessionEndpoints {
  import opened Wrappers
  import opened Seqs
  import opened Sessions
  import opened Students

  datatype EndpointFailure =
    | ProfileMissing                  // `throw new Error('Student profile not found')`
    | Service(cause: SessionFailure)  // an exception of the session service

  /** The ids of the sessions dated `today` for which the student holds a
      registration; a registration's session is looked up by id, deleted or not. */
  function RegisteredIdsOn(sessions: seq<ClassSession>, regs: set<Registration>, studentId: StudentId, today: Date)
    : (ids: set<SessionId>)
    ensures forall id: SessionId :: id in ids <==>
      Registration(studentId, id) in regs && id < |sessions| && sessions[id].date == today
  {
    set reg | reg in regs && reg.studentId == studentId && reg.sessionId < |sessions| &&
              sessions[reg.sessionId].date == today
      :: reg.sessionId
  }

  /** The sessions of `s` whose id is in `ids`, in their order in `s`. */
  function KeepIds(s: seq<ClassSession>, ids: set<SessionId>): (r: seq<ClassSession>)
    ensures forall x :: x in r <==> x in s && x.id in ids
    ensures SortedBy(s, StartKey) ==> SortedBy(r, StartKey)
  {
    if s == [] then []
    else
      var rest := KeepIds(s[1..], ids);
      assert forall x :: x in rest ==> x in s[1..];
      if s[0].id in ids then [s[0]] + rest else rest
  }

  /** Keeping some of the sessions of a duplicate-free list keeps it duplicate-free. */
  lemma {:induction false} KeepIdsDistinct(s: seq<ClassSession>, ids: set<SessionId>)
    requires Distinct(s)
    ensures Distinct(KeepIds(s, ids))
  {
    if s != [] {
      DistinctTail(s);
      KeepIdsDistinct(s[1..], ids);
      if s[0].id in ids {
        DistinctCons(s[0], KeepIds(s[1..], ids));
      }
    }
  }

  /** `getTodaySessions` for a student: the non-deleted sessions dated `today`
      that the caller's profile registered for, in start-time order. */
  function TodayRegisteredSessions(
    profiles: seq<StudentProfile>, sessions: seq<ClassSession>, regs: set<Registration>,
    userId: UserId, today: Date)
    : (r: Result<seq<ClassSession>, EndpointFailure>)
    requires KeyedByIndex(sessions)
    ensures ProfileOfUser(profiles, userId).None? <==> r == Failure(ProfileMissing)
    ensures r.Success? <==> ProfileOfUser(profiles, userId).Some?
    ensures ProfileOfUser(profiles, userId).Some? ==>
      RegisteredIdsOn(sessions, regs, ProfileOfUser(profiles, userId).value.id, today) == {} ==> r == Success([])
    ensures r.Success? ==>
      && SortedBy(r.value, StartKey)
      && Distinct(r.value)
      && forall s :: s in r.value <==>
           && s in sessions && s.date == today && !s.isDeleted
           && Registration(ProfileOfUser(profiles, userId).value.id, s.id) in regs
  {
    match ProfileOfUser(profiles, userId)
    case None => Failure(ProfileMissing)
    case Some(profile) =>
      var ids := RegisteredIdsOn(sessions, regs, profile.id, today);
      if ids == {} then Success([])
      else
        ActiveOnDistinct(sessions, today);
        SortByDistinct(ActiveOn(sessions, today), StartKey);
        KeepIdsDistinct(SessionsByDate(sessions, today), ids);
        Success(KeepIds(SessionsByDate(sessions, today), ids))
  }

  /** The ids of all student profiles. */
  function ProfileIds(profiles: seq<StudentProfile>): (ids: set<StudentId>)
    ensures forall id: StudentId :: id in ids <==> exists p :: p in profiles && p.id == id
  {
    set p | p in profiles :: p.id
  }

  /** A service outcome as the endpoint reports it. */
  function AsEndpoint(outcome: Result<Registration, SessionFailure>): (r: Result<Registration, EndpointFailure>)
    ensures r.Success? <==> outcome.Success?
    ensures r.Success? ==> r.value == outcome.value
    ensures r.Failure? ==> r.error == Service(outcome.error)
  {
    match outcome
    case Success(reg) => Success(reg)
    case Failure(cause) => Failure(Service(cause))
  }

  /** `registerForSession` for a student: the registration is made for the
      caller's profile id, never the user id; without a profile nothing is
      touched. */
  method RegisterAsUser(service: SessionService, profiles: seq<StudentProfile>, userId: UserId,
                        sessionId: SessionId, now: int)
    returns (r: Result<Registration, EndpointFailure>)
    requires service.Valid()
    modifies service
    ensures service.Valid() && service.sessions == old(service.sessions)
    ensures ProfileOfUser(profiles, userId).None? ==>
      r == Failure(ProfileMissing) && service.registrations == old(service.registrations)
    ensures ProfileOfUser(profiles, userId).Some? ==>
      r == AsEndpoint(RegisterOutcome(service.sessions, old(service.registrations),
                                      ProfileOfUser(profiles, userId).value.id, sessionId, ProfileIds(profiles), now))
    ensures r.Success? ==>
      && ProfileOfUser(profiles, userId).Some?
      && r.value == Registration(ProfileOfUser(profiles, userId).value.id, sessionId)
      && service.registrations == old(service.registrations) + {r.value}
    ensures r.Failure? ==> service.registrations == old(service.registrations)
  {
    var profile := ProfileOfUser(profiles, userId);
    if profile.None? {
      return Failure(ProfileMissing);
    }
    var outcome := service.RegisterForSession(profile.value.id, sessionId, ProfileIds(profiles), now);
    r := AsEndpoint(outcome);
  }
}
