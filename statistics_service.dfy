/** The read-only reports of backend/src/statistics/statistics.service.ts:
    weekly absence, far check-ins and the overview.

    Each report reads the session table, the attendance rows and (for the
    absence report) the class enrollment requests, and changes nothing. A
    report's window is a date range and an optional class id; an empty class
    id is falsy in the source and filters nothing. Percentages are exact
    rationals (`real`), not floating point. */
module Statistics {
  import opened Wrappers
  import opened Seqs
  import opened Sessions
  import opened LocationNotes

  datatype AttendanceStatus = Present | Absent

  /** An attendance row; check-out, coordinates and face scores are not read
      by any report and are left out. */
  datatype Attendance = Attendance(
    studentId: StudentId,
    sessionId: SessionId,
    checkInTime: Option<int>,
    locationNote: Option<string>,
    status: AttendanceStatus)

  datatype EnrollmentStatus = Pending | Approved | Rejected

  datatype Enrollment = Enrollment(studentId: StudentId, trainingClassId: ClassId, status: EnrollmentStatus)

  datatype Window = Window(startDate: Date, endDate: Date, classId: Option<ClassId>)

  /** A session is in the window: dated within it, not deleted, and of the
      window's class when one is given. */
  predicate InWindow(s: ClassSession, w: Window) {
    && w.startDate <= s.date <= w.endDate
    && !s.isDeleted
    && (Truthy(w.classId) ==> s.trainingClassId == w.classId)
  }

  /** In a table keyed by position, the weekly report's join on the session's
      `id` and the other reports' lookup by position pick the same session. */
  lemma JoinByIdIsByPosition(sessions: seq<ClassSession>, a: Attendance)
    requires KeyedByIndex(sessions)
    ensures (exists s :: s in sessions && s.id == a.sessionId) <==> a.sessionId < |sessions|
    ensures forall s :: s in sessions && s.id == a.sessionId ==> s == sessions[a.sessionId]
  {
    if a.sessionId < |sessions| {
      assert sessions[a.sessionId] in sessions;
    }
  }

  /** `part` as a percentage of `whole`, and 0 when `whole` is 0. */
  function Percent(part: nat, whole: nat): real {
    if whole > 0 then (part as real / whole as real) * 100.0 else 0.0
  }

  lemma PercentBounds(part: nat, whole: nat)
    requires part <= whole
    ensures 0.0 <= Percent(part, whole) <= 100.0
    ensures whole > 0 ==> (Percent(part, whole) == 100.0 <==> part == whole)
  {
    if whole > 0 {
      var q := part as real / whole as real;
      assert q * whole as real == part as real;
      assert q <= 1.0;
      assert q == 1.0 <==> part == whole;
    }
  }

  // ---------------------------------------------------------------------
  // Weekly absence
  // ---------------------------------------------------------------------

  /** The sessions in the window, in table order. */
  function WindowSessions(sessions: seq<ClassSession>, w: Window): (r: seq<ClassSession>)
    ensures forall s :: s in r <==> s in sessions && InWindow(s, w)
  {
    if sessions == [] then []
    else
      var n := |sessions| - 1;
      assert sessions == sessions[..n] + [sessions[n]];
      WindowSessions(sessions[..n], w) + (if InWindow(sessions[n], w) then [sessions[n]] else [])
  }

  /** The dates of `sessions` without repeats, in order of first appearance:
      the keys of the grouping of sessions by date. */
  function DistinctDates(sessions: seq<ClassSession>): (ds: seq<Date>)
    ensures forall d :: d in ds <==> exists s :: s in sessions && s.date == d
    ensures forall i, j :: 0 <= i < j < |ds| ==> ds[i] != ds[j]
  {
    if sessions == [] then []
    else
      var n := |sessions| - 1;
      assert sessions == sessions[..n] + [sessions[n]];
      var earlier := DistinctDates(sessions[..n]);
      if sessions[n].date in earlier then earlier else earlier + [sessions[n].date]
  }

  /** The classes whose enrolled students the absence report covers: the
      given class, or else every class that some session in the window
      belongs to. */
  function ClassScope(windowSessions: seq<ClassSession>, w: Window): (ids: set<ClassId>)
    ensures Truthy(w.classId) ==> ids == {w.classId.value}
    ensures !Truthy(w.classId) ==>
      forall c :: c in ids <==> exists s :: s in windowSessions && Truthy(s.trainingClassId) && s.trainingClassId.value == c
  {
    if Truthy(w.classId) then {w.classId.value}
    else set s | s in windowSessions && Truthy(s.trainingClassId) :: s.trainingClassId.value
  }

  /** The approved enrollment requests of the classes in scope, in table order. */
  function EnrolledIn(enrollments: seq<Enrollment>, scope: set<ClassId>): (r: seq<Enrollment>)
    ensures forall e :: e in r <==> e in enrollments && e.status == Approved && e.trainingClassId in scope
  {
    if enrollments == [] then []
    else
      var n := |enrollments| - 1;
      var e := enrollments[n];
      assert enrollments == enrollments[..n] + [e];
      EnrolledIn(enrollments[..n], scope) + (if e.status == Approved && e.trainingClassId in scope then [e] else [])
  }

  /** The student checked in to some session of the window dated `d`. */
  predicate AttendedOn(attendances: seq<Attendance>, windowSessions: seq<ClassSession>, studentId: StudentId, d: Date) {
    exists a, s :: a in attendances && s in windowSessions &&
      a.studentId == studentId && a.checkInTime.Some? && a.sessionId == s.id && s.date == d
  }

  /** The dates of `dates` on which the student did not check in, in order. */
  function AbsentDates(dates: seq<Date>, attendances: seq<Attendance>, windowSessions: seq<ClassSession>,
                       studentId: StudentId): (r: seq<Date>)
    ensures forall d :: d in r <==> d in dates && !AttendedOn(attendances, windowSessions, studentId, d)
    ensures |r| <= |dates|
  {
    if dates == [] then []
    else
      var n := |dates| - 1;
      assert dates == dates[..n] + [dates[n]];
      AbsentDates(dates[..n], attendances, windowSessions, studentId) +
        (if AttendedOn(attendances, windowSessions, studentId, dates[n]) then [] else [dates[n]])
  }

  /** An enrolled student who checked in on every date has no absent day, and
      their report line shows a 100 percent attendance rate. */
  lemma FullAttendanceHasNoAbsence(e: Enrollment, dates: seq<Date>, attendances: seq<Attendance>,
                                   windowSessions: seq<ClassSession>)
    requires forall d :: d in dates ==> AttendedOn(attendances, windowSessions, e.studentId, d)
    ensures AbsentDates(dates, attendances, windowSessions, e.studentId) == []
    ensures AbsenceOf(e, dates, attendances, windowSessions).absentDays == 0
    ensures |dates| > 0 ==> AbsenceOf(e, dates, attendances, windowSessions).attendanceRate == 100.0
  {
    PercentBounds(|dates|, |dates|);
  }

  /** The per-date loop of the absence report: every date counts toward
      `totalDays`, and one without a check-in toward `absentDays`. */
  method CountAbsentDays(dates: seq<Date>, attendances: seq<Attendance>, windowSessions: seq<ClassSession>,
                         studentId: StudentId)
    returns (absentDays: nat, totalDays: nat)
    ensures totalDays == |dates|
    ensures absentDays == |AbsentDates(dates, attendances, windowSessions, studentId)|
    ensures absentDays <= totalDays
  {
    absentDays, totalDays := 0, 0;
    for i := 0 to |dates|
      invariant totalDays == i
      invariant absentDays == |AbsentDates(dates[..i], attendances, windowSessions, studentId)|
    {
      assert dates[..i + 1][..i] == dates[..i];
      totalDays := totalDays + 1;
      var hasAttendance := AttendedOn(attendances, windowSessions, studentId, dates[i]);
      if !hasAttendance {
        absentDays := absentDays + 1;
      }
    }
    assert dates[..|dates|] == dates;
  }

  datatype StudentAbsence = StudentAbsence(
    studentId: StudentId,
    classId: ClassId,
    absentDays: nat,
    totalDays: nat,
    attendanceRate: real)

  datatype AbsenceReport = AbsenceReport(startDate: Date, endDate: Date, totalDays: nat, students: seq<StudentAbsence>)

  /** The report line of one enrollment. */
  function AbsenceOf(e: Enrollment, dates: seq<Date>, attendances: seq<Attendance>,
                     windowSessions: seq<ClassSession>): StudentAbsence
  {
    var absent := |AbsentDates(dates, attendances, windowSessions, e.studentId)|;
    StudentAbsence(e.studentId, e.trainingClassId, absent, |dates|, Percent(|dates| - absent, |dates|))
  }

  /** The report lines of `es`, one per enrollment, in order. */
  function AbsencesOf(es: seq<Enrollment>, dates: seq<Date>, attendances: seq<Attendance>,
                      windowSessions: seq<ClassSession>): (r: seq<StudentAbsence>)
    ensures |r| == |es|
    ensures forall k :: 0 <= k < |es| ==> r[k] == AbsenceOf(es[k], dates, attendances, windowSessions)
  {
    if es == [] then []
    else
      var n := |es| - 1;
      AbsencesOf(es[..n], dates, attendances, windowSessions) + [AbsenceOf(es[n], dates, attendances, windowSessions)]
  }

  /** Every line of `AbsencesOf` spans all the dates and carries its rate. */
  lemma AbsencesOfLines(es: seq<Enrollment>, dates: seq<Date>, attendances: seq<Attendance>,
                        windowSessions: seq<ClassSession>)
    ensures forall x :: x in AbsencesOf(es, dates, attendances, windowSessions) ==>
      && x.totalDays == |dates|
      && x.absentDays <= x.totalDays
      && x.attendanceRate == Percent(x.totalDays - x.absentDays, x.totalDays)
  {
    var r := AbsencesOf(es, dates, attendances, windowSessions);
    forall x | x in r
      ensures x.totalDays == |dates| && x.absentDays <= x.totalDays
    {
      var k :| 0 <= k < |r| && r[k] == x;
    }
  }

  /** Sorting on this key puts the most absent days first. */
  function MostAbsentFirst(x: StudentAbsence): int { 0 - x.absentDays }

  /** The per-student loop of the absence report, one line per enrollment. */
  method AbsenceLines(enrolled: seq<Enrollment>, dates: seq<Date>, attendances: seq<Attendance>,
                      windowSessions: seq<ClassSession>)
    returns (lines: seq<StudentAbsence>)
    ensures lines == AbsencesOf(enrolled, dates, attendances, windowSessions)
  {
    lines := [];
    for i := 0 to |enrolled|
      invariant lines == AbsencesOf(enrolled[..i], dates, attendances, windowSessions)
    {
      assert enrolled[..i + 1][..i] == enrolled[..i];
      var e := enrolled[i];
      var absentDays, totalDays := CountAbsentDays(dates, attendances, windowSessions, e.studentId);
      lines := lines + [StudentAbsence(e.studentId, e.trainingClassId, absentDays, totalDays,
                                       Percent(totalDays - absentDays, totalDays))];
    }
    assert enrolled[..|enrolled|] == enrolled;
  }

  /** `getWeeklyAbsenceStats`: one line per approved enrollment in scope, each
      over the same distinct dates, sorted by absent days, most first. */
  method WeeklyAbsenceStats(w: Window, sessions: seq<ClassSession>, enrollments: seq<Enrollment>,
                            attendances: seq<Attendance>)
    returns (report: AbsenceReport)
    requires KeyedByIndex(sessions)
    ensures
      var inWindow := WindowSessions(sessions, w);
      var dates := DistinctDates(inWindow);
      var enrolled := EnrolledIn(enrollments, ClassScope(inWindow, w));
      && report.startDate == w.startDate && report.endDate == w.endDate
      && report.totalDays == |dates|
      && multiset(report.students) == multiset(AbsencesOf(enrolled, dates, attendances, inWindow))
      && |report.students| == |enrolled|
      && SortedBy(report.students, MostAbsentFirst)
    ensures forall x :: x in report.students ==>
      && x.totalDays == report.totalDays
      && x.absentDays <= x.totalDays
      && x.attendanceRate == Percent(x.totalDays - x.absentDays, x.totalDays)
  {
    var inWindow := WindowSessions(sessions, w);
    var enrolled := EnrolledIn(enrollments, ClassScope(inWindow, w));
    var dates := DistinctDates(inWindow);
    var lines := AbsenceLines(enrolled, dates, attendances, inWindow);
    AbsencesOfLines(enrolled, dates, attendances, inWindow);
    report := AbsenceReport(w.startDate, w.endDate, |dates|, SortBy(lines, MostAbsentFirst));
  }

  // ---------------------------------------------------------------------
  // Far check-ins
  // ---------------------------------------------------------------------

  /** A row the far check-in query fetches: checked in, with a note holding
      the far marker, for a session in the window. */
  predicate IsFarCheckIn(a: Attendance, sessions: seq<ClassSession>, w: Window) {
    && a.checkInTime.Some?
    && a.locationNote.Some? && Contains(a.locationNote.value, FarMarker)
    && a.sessionId < |sessions| && InWindow(sessions[a.sessionId], w)
  }

  /** The far check-in rows, in table order. */
  function FarRows(attendances: seq<Attendance>, sessions: seq<ClassSession>, w: Window): (r: seq<Attendance>)
    ensures forall a :: a in r <==> a in attendances && IsFarCheckIn(a, sessions, w)
  {
    if attendances == [] then []
    else
      var n := |attendances| - 1;
      var a := attendances[n];
      assert attendances == attendances[..n] + [a];
      FarRows(attendances[..n], sessions, w) + (if IsFarCheckIn(a, sessions, w) then [a] else [])
  }

  /** Sorting on this key puts the latest check-in first. */
  function LatestFirst(a: Attendance): int { -a.checkInTime.GetOr(0) }

  /** Every row refers to a session of the table. */
  predicate Joinable(rows: seq<Attendance>, sessions: seq<ClassSession>) {
    forall a :: a in rows ==> a.sessionId < |sessions|
  }

  datatype FarCheckIn = FarCheckIn(
    date: Date,
    sessionName: string,
    checkInTime: Option<int>,
    locationNote: Option<string>,
    distance: nat)

  /** One student's line of the far check-in report. */
  datatype StudentFar = StudentFar(
    studentId: StudentId,
    classId: Option<ClassId>,
    farCheckIns: seq<FarCheckIn>,
    totalFarCheckIns: nat,
    maxDistance: nat,
    avgDistance: nat)

  function FarTotal(x: StudentFar): nat { x.totalFarCheckIns }

  /** Sorting on this key puts the most far check-ins first. */
  function MostFarFirst(x: StudentFar): int { 0 - x.totalFarCheckIns }

  /** The report entry of a row, joined to its session. */
  function EntryOf(a: Attendance, s: ClassSession): FarCheckIn {
    FarCheckIn(s.date, s.name, a.checkInTime, a.locationNote, ExtractDistance(a.locationNote))
  }

  /** The entries of the student's rows, in row order. */
  function EntriesOf(rows: seq<Attendance>, sessions: seq<ClassSession>, studentId: StudentId): seq<FarCheckIn>
    requires Joinable(rows, sessions)
  {
    if rows == [] then []
    else
      var n := |rows| - 1;
      var a := rows[n];
      assert rows == rows[..n] + [a];
      EntriesOf(rows[..n], sessions, studentId) + (if a.studentId == studentId then [EntryOf(a, sessions[a.sessionId])] else [])
  }

  /** The position of the student's line, or -1 when there is none. */
  function IndexOfStudent(lines: seq<StudentFar>, studentId: StudentId): (k: int)
    ensures -1 <= k < |lines|
    ensures k >= 0 ==> lines[k].studentId == studentId
    ensures k < 0 ==> forall x :: x in lines ==> x.studentId != studentId
  {
    if lines == [] then -1
    else
      var n := |lines| - 1;
      assert lines == lines[..n] + [lines[n]];
      if lines[n].studentId == studentId then n else IndexOfStudent(lines[..n], studentId)
  }

  /** One step of the grouping: the row's entry is appended to its student's
      line, which is opened (empty, with count 0) on the student's first row. */
  function AddRow(lines: seq<StudentFar>, a: Attendance, sessions: seq<ClassSession>): seq<StudentFar>
    requires a.sessionId < |sessions|
  {
    var s := sessions[a.sessionId];
    var k := IndexOfStudent(lines, a.studentId);
    if k < 0 then Bump(lines + [StudentFar(a.studentId, s.trainingClassId, [], 0, 0, 0)], |lines|, EntryOf(a, s))
    else Bump(lines, k, EntryOf(a, s))
  }

  /** Appends an entry to the line at `at` and counts it. */
  function Bump(lines: seq<StudentFar>, at: nat, e: FarCheckIn): seq<StudentFar>
    requires at < |lines|
  {
    lines[at := lines[at].(farCheckIns := lines[at].farCheckIns + [e], totalFarCheckIns := lines[at].totalFarCheckIns + 1)]
  }

  /** No two lines are for the same student. */
  predicate DistinctStudents(lines: seq<StudentFar>) {
    forall i, j :: 0 <= i < j < |lines| ==> lines[i].studentId != lines[j].studentId
  }

  function StudentIds(lines: seq<StudentFar>): set<StudentId> {
    set x | x in lines :: x.studentId
  }

  /** The line holds exactly its student's entries, and at least one. */
  ghost predicate LineFits(x: StudentFar, rows: seq<Attendance>, sessions: seq<ClassSession>)
    requires Joinable(rows, sessions)
  {
    x.farCheckIns == EntriesOf(rows, sessions, x.studentId) && x.totalFarCheckIns == |x.farCheckIns| > 0
  }

  ghost predicate LinesMatch(lines: seq<StudentFar>, rows: seq<Attendance>, sessions: seq<ClassSession>)
    requires Joinable(rows, sessions)
  {
    forall x :: x in lines ==> LineFits(x, rows, sessions)
  }

  /** The lines of a grouping of `rows`: one per student with a row, each with
      that student's entries, the counts adding up to the number of rows. */
  ghost predicate GroupedLines(lines: seq<StudentFar>, rows: seq<Attendance>, sessions: seq<ClassSession>)
    requires Joinable(rows, sessions)
  {
    && DistinctStudents(lines)
    && LinesMatch(lines, rows, sessions)
    && (forall a :: a in rows ==> a.studentId in StudentIds(lines))
    && SumBy(lines, FarTotal) == |rows|
  }

  /** The accumulator the grouping `reduce` builds over `rows`. */
  function Grouped(rows: seq<Attendance>, sessions: seq<ClassSession>): seq<StudentFar>
    requires Joinable(rows, sessions)
  {
    if rows == [] then []
    else
      var n := |rows| - 1;
      assert rows[n] in rows && forall b :: b in rows[..n] ==> b in rows;
      AddRow(Grouped(rows[..n], sessions), rows[n], sessions)
  }

  /** The grouping `reduce` yields one line per student with that student's
      entries, the counts adding up to the number of rows. */
  lemma {:induction false} GroupedIsGrouping(rows: seq<Attendance>, sessions: seq<ClassSession>)
    requires Joinable(rows, sessions)
    ensures GroupedLines(Grouped(rows, sessions), rows, sessions)
  {
    if rows != [] {
      var n := |rows| - 1;
      assert rows == rows[..n] + [rows[n]];
      GroupedIsGrouping(rows[..n], sessions);
      AddRowGroups(Grouped(rows[..n], sessions), rows[..n], rows[n], sessions);
    }
  }

  lemma EntriesOfSnoc(rows: seq<Attendance>, a: Attendance, sessions: seq<ClassSession>, studentId: StudentId)
    requires Joinable(rows + [a], sessions)
    ensures Joinable(rows, sessions)
    ensures EntriesOf(rows + [a], sessions, studentId) ==
      EntriesOf(rows, sessions, studentId) + (if a.studentId == studentId then [EntryOf(a, sessions[a.sessionId])] else [])
  {
    assert (rows + [a])[..|rows|] == rows;
  }

  /** A student without rows has no entries. */
  lemma {:induction false} EntriesOfAbsent(rows: seq<Attendance>, sessions: seq<ClassSession>, studentId: StudentId)
    requires Joinable(rows, sessions)
    requires forall b :: b in rows ==> b.studentId != studentId
    ensures EntriesOf(rows, sessions, studentId) == []
  {
    if rows != [] {
      var n := |rows| - 1;
      assert rows[n] in rows;
      assert forall b :: b in rows[..n] ==> b in rows;
      EntriesOfAbsent(rows[..n], sessions, studentId);
    }
  }

  /** A row adds its student to the lines, opening a line only for a new student. */
  lemma AddRowIds(lines: seq<StudentFar>, a: Attendance, sessions: seq<ClassSession>)
    requires a.sessionId < |sessions|
    ensures StudentIds(AddRow(lines, a, sessions)) == StudentIds(lines) + {a.studentId}
    ensures DistinctStudents(lines) ==> DistinctStudents(AddRow(lines, a, sessions))
  {
    var r := AddRow(lines, a, sessions);
    var k := IndexOfStudent(lines, a.studentId);
    assert forall i :: 0 <= i < |lines| ==> r[i].studentId == lines[i].studentId;
    if k < 0 {
      assert r[|lines|].studentId == a.studentId;
      assert forall x :: x in r ==> x in r[..|lines|] || x == r[|lines|];
    }
    forall id | id in StudentIds(lines)
      ensures id in StudentIds(r)
    {
      var x :| x in lines && x.studentId == id;
      var i :| 0 <= i < |lines| && lines[i] == x;
      assert r[i] in r;
    }
    forall id | id in StudentIds(r)
      ensures id in StudentIds(lines) + {a.studentId}
    {
      var x :| x in r && x.studentId == id;
      var i :| 0 <= i < |r| && r[i] == x;
      if i < |lines| {
        assert lines[i] in lines;
      }
    }
    if k >= 0 {
      assert r[k] in r;
    } else {
      assert r[|lines|] in r;
    }
  }

  /** A row's entry goes to its student's line; the other lines keep theirs. */
  lemma AddRowEntries(lines: seq<StudentFar>, rows: seq<Attendance>, a: Attendance, sessions: seq<ClassSession>)
    requires Joinable(rows + [a], sessions)
    requires Joinable(rows, sessions) && LinesMatch(lines, rows, sessions) && DistinctStudents(lines)
    requires forall b :: b in rows ==> b.studentId in StudentIds(lines)
    ensures LinesMatch(AddRow(lines, a, sessions), rows + [a], sessions)
  {
    var r := AddRow(lines, a, sessions);
    var k := IndexOfStudent(lines, a.studentId);
    var at := if k < 0 then |lines| else k;
    EntriesOfSnoc(rows, a, sessions, a.studentId);
    if k < 0 {
      forall b | b in rows
        ensures b.studentId != a.studentId
      {
        var x :| x in lines && x.studentId == b.studentId;
      }
      EntriesOfAbsent(rows, sessions, a.studentId);
    } else {
      assert lines[k] in lines;
    }
    forall x | x in r
      ensures LineFits(x, rows + [a], sessions)
    {
      EntriesOfSnoc(rows, a, sessions, x.studentId);
      var i :| 0 <= i < |r| && r[i] == x;
      if i != at {
        assert x == lines[i] && lines[i] in lines;
        assert x.studentId != a.studentId;
      }
    }
  }

  /** A row adds one to the sum of the counts. */
  lemma AddRowSum(lines: seq<StudentFar>, a: Attendance, sessions: seq<ClassSession>)
    requires a.sessionId < |sessions|
    ensures SumBy(AddRow(lines, a, sessions), FarTotal) == SumBy(lines, FarTotal) + 1
  {
    var s := sessions[a.sessionId];
    var k := IndexOfStudent(lines, a.studentId);
    var entry := EntryOf(a, s);
    if k < 0 {
      var newLine := StudentFar(a.studentId, s.trainingClassId, [], 0, 0, 0);
      SumByConcat(lines, [newLine], FarTotal);
      assert SumBy([newLine], FarTotal) == 0 by { assert [newLine][..0] == []; }
      BumpSum(lines + [newLine], |lines|, entry);
    } else {
      BumpSum(lines, k, entry);
    }
  }

  lemma BumpSum(lines: seq<StudentFar>, at: nat, e: FarCheckIn)
    requires at < |lines|
    ensures SumBy(Bump(lines, at, e), FarTotal) == SumBy(lines, FarTotal) + 1
  {
    SumByUpdate(lines, at, Bump(lines, at, e)[at], FarTotal);
  }

  /** Adding a row to a grouping of `rows` gives a grouping of `rows + [a]`. */
  lemma AddRowGroups(lines: seq<StudentFar>, rows: seq<Attendance>, a: Attendance, sessions: seq<ClassSession>)
    requires Joinable(rows + [a], sessions)
    requires Joinable(rows, sessions) && GroupedLines(lines, rows, sessions)
    ensures GroupedLines(AddRow(lines, a, sessions), rows + [a], sessions)
  {
    AddRowIds(lines, a, sessions);
    AddRowEntries(lines, rows, a, sessions);
    AddRowSum(lines, a, sessions);
  }

  /** The `reduce` that groups the far check-in rows by student. */
  method GroupByStudent(rows: seq<Attendance>, sessions: seq<ClassSession>) returns (lines: seq<StudentFar>)
    requires Joinable(rows, sessions)
    ensures lines == Grouped(rows, sessions)
  {
    lines := [];
    for i := 0 to |rows|
      invariant lines == Grouped(rows[..i], sessions)
    {
      GroupedSnoc(rows, i, sessions);
      var a := rows[i];
      var s := sessions[a.sessionId];
      var k := IndexOfStudent(lines, a.studentId);
      if k < 0 {
        lines := lines + [StudentFar(a.studentId, s.trainingClassId, [], 0, 0, 0)];
        k := |lines| - 1;
      }
      lines := Bump(lines, k, EntryOf(a, s));
    }
    assert rows[..|rows|] == rows;
  }

  lemma GroupedSnoc(rows: seq<Attendance>, i: nat, sessions: seq<ClassSession>)
    requires i < |rows| && Joinable(rows, sessions)
    ensures Joinable(rows[..i], sessions) && Joinable(rows[..i + 1], sessions)
    ensures Grouped(rows[..i + 1], sessions) == AddRow(Grouped(rows[..i], sessions), rows[i], sessions)
  {
    assert rows[..i + 1][..i] == rows[..i];
  }

  function Distances(entries: seq<FarCheckIn>): (ds: seq<nat>)
    ensures |ds| == |entries|
    ensures forall k :: 0 <= k < |entries| ==> ds[k] == entries[k].distance
  {
    if entries == [] then [] else Distances(entries[..|entries| - 1]) + [entries[|entries| - 1].distance]
  }

  function Sum(xs: seq<nat>): nat {
    if xs == [] then 0 else Sum(xs[..|xs| - 1]) + xs[|xs| - 1]
  }

  /** `Math.max(...xs)`. */
  function MaxOf(xs: seq<nat>): (m: nat)
    requires |xs| > 0
    ensures m in xs && forall x :: x in xs ==> x <= m
  {
    var n := |xs| - 1;
    assert xs == xs[..n] + [xs[n]];
    if n == 0 then xs[0]
    else
      var m := MaxOf(xs[..n]);
      if xs[n] > m then xs[n] else m
  }

  /** The smallest element (only used to state what the average lies between). */
  function MinOf(xs: seq<nat>): (m: nat)
    requires |xs| > 0
    ensures m in xs && forall x :: x in xs ==> m <= x
  {
    var n := |xs| - 1;
    assert xs == xs[..n] + [xs[n]];
    if n == 0 then xs[0]
    else
      var m := MinOf(xs[..n]);
      if xs[n] < m then xs[n] else m
  }

  lemma {:induction false} SumBetween(xs: seq<nat>, lo: nat, hi: nat)
    requires forall k :: 0 <= k < |xs| ==> lo <= xs[k] <= hi
    ensures |xs| * lo <= Sum(xs) <= |xs| * hi
  {
    if xs != [] {
      var n := |xs| - 1;
      SumBetween(xs[..n], lo, hi);
      assert Sum(xs) == Sum(xs[..n]) + xs[n];
      assert |xs| * lo == n * lo + lo by { DistributeOne(n, lo); }
      assert |xs| * hi == n * hi + hi by { DistributeOne(n, hi); }
    }
  }

  lemma DistributeOne(n: nat, c: nat)
    ensures (n + 1) * c == n * c + c
  {
  }


  /** `Math.round(sum / n)` for natural numbers: the quotient rounded half up. */
  function RoundedMean(sum: nat, n: nat): nat
    requires n > 0
  {
    (2 * sum + n) / (2 * n)
  }

  /** `r` is the integer nearest to `sum / n`, halves rounded up:
      `r - 1/2 <= sum / n < r + 1/2`. */
  predicate NearestMean(r: nat, sum: nat, n: nat) {
    2 * n * r <= 2 * sum + n < 2 * n * (r + 1)
  }

  /** `RoundedMean` rounds to the nearest integer, as `Math.round` does. */
  lemma RoundedMeanNearest(sum: nat, n: nat)
    requires n > 0
    ensures NearestMean(RoundedMean(sum, n), sum, n)
  {
    var x, d := 2 * sum + n, 2 * n;
    var q := x / d;
    assert x == d * q + x % d && 0 <= x % d < d;
    assert d * (q + 1) == d * q + d;
  }

  /** A rounded mean lies between the bounds of the values averaged. */
  lemma RoundedMeanBetween(sum: nat, n: nat, lo: nat, hi: nat)
    requires n > 0 && n * lo <= sum <= n * hi
    ensures lo <= RoundedMean(sum, n) <= hi
  {
    var d := 2 * n;
    assert d * lo <= 2 * sum + n;
    QuotientAtLeast(2 * sum + n, d, lo);
    assert 2 * sum + n < d * (hi + 1);
    QuotientAtMost(2 * sum + n, d, hi);
  }

  lemma QuotientAtLeast(x: nat, d: nat, k: nat)
    requires d > 0 && d * k <= x
    ensures k <= x / d
  {
    var q, m := x / d, x % d;
    assert d * q + m == x && m < d;
    if q < k {
      assert d * q <= d * (k - 1) by { MultiplyMonotone(d, q, k - 1); }
      assert false;
    }
  }

  lemma QuotientAtMost(x: nat, d: nat, k: nat)
    requires d > 0 && x < d * (k + 1)
    ensures x / d <= k
  {
    var q := x / d;
    if q > k {
      MultiplyMonotone(d, k + 1, q);
    }
  }

  lemma MultiplyMonotone(d: nat, a: nat, b: nat)
    requires a <= b
    ensures d * a <= d * b
  {
    assert d * b == d * a + d * (b - a);
  }

  /** The report line of a grouped student: the greatest distance and the
      rounded mean distance over their far check-ins. */
  function Summarize(x: StudentFar): (r: StudentFar)
    requires |x.farCheckIns| > 0
    ensures r == x.(maxDistance := r.maxDistance, avgDistance := r.avgDistance)
    ensures DistanceFigures(r)
  {
    var ds := Distances(x.farCheckIns);
    RoundedMeanNearest(Sum(ds), |ds|);
    var maxDistance := MaxOf(ds);
    assert forall k :: 0 <= k < |ds| ==> ds[k] in ds;
    SumBetween(ds, MinOf(ds), maxDistance);
    RoundedMeanBetween(Sum(ds), |ds|, MinOf(ds), maxDistance);
    x.(maxDistance := maxDistance, avgDistance := RoundedMean(Sum(ds), |ds|))
  }

  /** The line's greatest distance is one of its distances and bounds them
      all, and its average is the mean distance rounded to the nearest
      integer, which lies between the least and the greatest distance. */
  predicate DistanceFigures(x: StudentFar) {
    && |x.farCheckIns| > 0
    && x.maxDistance in Distances(x.farCheckIns)
    && (forall d :: d in Distances(x.farCheckIns) ==> d <= x.maxDistance)
    && NearestMean(x.avgDistance, Sum(Distances(x.farCheckIns)), |x.farCheckIns|)
    && MinOf(Distances(x.farCheckIns)) <= x.avgDistance <= x.maxDistance
  }

  /** The far check-in lines with their distance figures. */
  function Summaries(lines: seq<StudentFar>): (r: seq<StudentFar>)
    requires forall x :: x in lines ==> |x.farCheckIns| > 0
    ensures |r| == |lines|
    ensures forall k :: 0 <= k < |lines| ==> r[k] == Summarize(lines[k])
  {
    seq(|lines|, k requires 0 <= k < |lines| => assert lines[k] in lines; Summarize(lines[k]))
  }

  /** Summarizing keeps each line's entries and count, and adds its
      distance figures. */
  lemma SummariesKeepLines(lines: seq<StudentFar>, rows: seq<Attendance>, sessions: seq<ClassSession>)
    requires Joinable(rows, sessions) && LinesMatch(lines, rows, sessions)
    ensures forall x :: x in Summaries(lines) ==> LineFits(x, rows, sessions) && DistanceFigures(x)
  {
    var r := Summaries(lines);
    forall x | x in r
      ensures LineFits(x, rows, sessions) && DistanceFigures(x)
    {
      var k :| 0 <= k < |r| && r[k] == x;
      assert lines[k] in lines;
    }
  }

  /** Summarizing keeps the students. */
  lemma SummariesKeepStudents(lines: seq<StudentFar>)
    requires forall x :: x in lines ==> |x.farCheckIns| > 0
    ensures StudentIds(Summaries(lines)) == StudentIds(lines)
  {
    var r := Summaries(lines);
    forall x | x in r
      ensures x.studentId in StudentIds(lines)
    {
      var k :| 0 <= k < |r| && r[k] == x;
      assert lines[k] in lines;
    }
    forall id | id in StudentIds(lines)
      ensures id in StudentIds(r)
    {
      var y :| y in lines && y.studentId == id;
      var k :| 0 <= k < |lines| && lines[k] == y;
      assert r[k] in r;
    }
  }

  datatype FarReport = FarReport(startDate: Date, endDate: Date, totalFarCheckIns: nat, students: seq<StudentFar>)

  /** `getFarCheckInStats`: the far check-ins grouped by student, each line
      holding exactly that student's check-ins (latest first) and their
      count; every student with a far check-in has a line, the counts add up
      to the number of far check-ins, and the lines come most far check-ins
      first. */
  method FarCheckInStats(w: Window, sessions: seq<ClassSession>, attendances: seq<Attendance>)
    returns (report: FarReport)
    requires KeyedByIndex(sessions)
    ensures
      var rows := SortBy(FarRows(attendances, sessions, w), LatestFirst);
      && Joinable(rows, sessions)
      && report.startDate == w.startDate && report.endDate == w.endDate
      && report.totalFarCheckIns == |FarRows(attendances, sessions, w)|
      && SumBy(report.students, FarTotal) == report.totalFarCheckIns
      && SortedBy(report.students, MostFarFirst)
      && (forall a :: a in FarRows(attendances, sessions, w) ==> a.studentId in StudentIds(report.students))
      && forall x :: x in report.students ==> LineFits(x, rows, sessions) && DistanceFigures(x)
  {
    var rows := SortBy(FarRows(attendances, sessions, w), LatestFirst);
    var lines := GroupByStudent(rows, sessions);
    GroupedIsGrouping(rows, sessions);
    var stats := Summaries(lines);
    SummariesKeepLines(lines, rows, sessions);
    SummariesKeepStudents(lines);
    SumByPointwise(stats, lines, FarTotal, FarTotal);
    var sorted := SortBy(stats, MostFarFirst);
    SumByPermutation(sorted, stats, FarTotal);
    assert StudentIds(sorted) == StudentIds(stats);
    report := FarReport(w.startDate, w.endDate, |rows|, sorted);
  }

  // ---------------------------------------------------------------------
  // Overview
  // ---------------------------------------------------------------------

  /** The attendance rows each overview figure counts. */
  datatype RowKind = AnyRow | CheckedIn | WithStatus(status: AttendanceStatus) | FarNoted

  predicate OfKind(a: Attendance, kind: RowKind) {
    match kind
    case AnyRow => true
    case CheckedIn => a.checkInTime.Some?
    case WithStatus(st) => a.status == st
    case FarNoted => a.locationNote.Some? && Contains(a.locationNote.value, FarMarker)
  }

  /** The number of rows of the kind whose session is in the window. */
  function CountRows(attendances: seq<Attendance>, sessions: seq<ClassSession>, w: Window, kind: RowKind): nat {
    if attendances == [] then 0
    else
      var n := |attendances| - 1;
      var a := attendances[n];
      CountRows(attendances[..n], sessions, w, kind) +
        (if a.sessionId < |sessions| && InWindow(sessions[a.sessionId], w) && OfKind(a, kind) then 1 else 0)
  }

  lemma {:induction false} CountRowsAtMostAll(attendances: seq<Attendance>, sessions: seq<ClassSession>, w: Window,
                                              kind: RowKind)
    ensures CountRows(attendances, sessions, w, kind) <= CountRows(attendances, sessions, w, AnyRow)
  {
    if attendances != [] {
      CountRowsAtMostAll(attendances[..|attendances| - 1], sessions, w, kind);
    }
  }

  /** Every row in the window is either PRESENT or ABSENT. */
  lemma {:induction false} PresentPlusAbsent(attendances: seq<Attendance>, sessions: seq<ClassSession>, w: Window)
    ensures CountRows(attendances, sessions, w, WithStatus(Present)) + CountRows(attendances, sessions, w, WithStatus(Absent))
         == CountRows(attendances, sessions, w, AnyRow)
  {
    if attendances != [] {
      PresentPlusAbsent(attendances[..|attendances| - 1], sessions, w);
    }
  }

  datatype Overview = Overview(
    startDate: Date,
    endDate: Date,
    totalSessions: nat,
    totalAttendances: nat,
    presentCount: nat,
    absentCount: nat,
    farCheckInCount: nat,
    presentRate: real,
    absentRate: real,
    farCheckInRate: real)

  /** `getOverallStats` as written: every rate is over the rows with a
      check-in, while the status and far counts ignore the check-in. */
  function OverallStats(w: Window, sessions: seq<ClassSession>, attendances: seq<Attendance>): (r: Overview)
    requires KeyedByIndex(sessions)
    ensures r.startDate == w.startDate && r.endDate == w.endDate
    ensures r.totalSessions == |WindowSessions(sessions, w)|
    ensures r.totalAttendances == CountRows(attendances, sessions, w, CheckedIn)
    ensures r.presentCount == CountRows(attendances, sessions, w, WithStatus(Present))
    ensures r.absentCount == CountRows(attendances, sessions, w, WithStatus(Absent))
    ensures r.farCheckInCount == CountRows(attendances, sessions, w, FarNoted)
    ensures r.totalAttendances <= CountRows(attendances, sessions, w, AnyRow)
    ensures r.presentCount + r.absentCount == CountRows(attendances, sessions, w, AnyRow)
    ensures r.presentRate == Percent(r.presentCount, r.totalAttendances)
    ensures r.absentRate == Percent(r.absentCount, r.totalAttendances)
    ensures r.farCheckInRate == Percent(r.farCheckInCount, r.totalAttendances)
  {
    var totalAttendances := CountRows(attendances, sessions, w, CheckedIn);
    var presentCount := CountRows(attendances, sessions, w, WithStatus(Present));
    var absentCount := CountRows(attendances, sessions, w, WithStatus(Absent));
    var farCheckInCount := CountRows(attendances, sessions, w, FarNoted);
    CountRowsAtMostAll(attendances, sessions, w, CheckedIn);
    PresentPlusAbsent(attendances, sessions, w);
    Overview(w.startDate, w.endDate, |WindowSessions(sessions, w)|, totalAttendances,
             presentCount, absentCount, farCheckInCount,
             Percent(presentCount, totalAttendances),
             Percent(absentCount, totalAttendances),
             Percent(farCheckInCount, totalAttendances))
  }

  /** One PRESENT row with a check-in and two ABSENT rows without one (the
      way absences are stored) give an absent rate of 200 percent. */
  lemma AbsentRateCanExceedHundred()
    ensures
      var session := ClassSession(0, 10, "Ca Sáng", 480, 660, 480 * MsPerMinute, false, None);
      var rows := [Attendance(1, 0, Some(1000), None, Present),
                   Attendance(2, 0, None, None, Absent),
                   Attendance(3, 0, None, None, Absent)];
      var r := OverallStats(Window(10, 16, None), [session], rows);
      r.totalAttendances == 1 && r.absentCount == 2 && r.absentRate == 200.0 &&
      r.presentRate + r.absentRate == 300.0
  {
    var session := ClassSession(0, 10, "Ca Sáng", 480, 660, 480 * MsPerMinute, false, None);
    var rows := [Attendance(1, 0, Some(1000), None, Present),
                 Attendance(2, 0, None, None, Absent),
                 Attendance(3, 0, None, None, Absent)];
    var w := Window(10, 16, None);
    assert rows[..|rows| - 1] == rows[..2] && rows[..2][..1] == rows[..1] && rows[..1][..0] == [];
    assert CountRows(rows[..1], [session], w, CheckedIn) == 1;
    assert CountRows(rows[..2], [session], w, CheckedIn) == 1;
    assert CountRows(rows, [session], w, CheckedIn) == 1;
    assert CountRows(rows[..1], [session], w, WithStatus(Present)) == 1;
    assert CountRows(rows[..2], [session], w, WithStatus(Present)) == 1;
    assert CountRows(rows, [session], w, WithStatus(Present)) == 1;
    assert CountRows(rows[..1], [session], w, WithStatus(Absent)) == 0;
    assert CountRows(rows[..2], [session], w, WithStatus(Absent)) == 1;
    assert CountRows(rows, [session], w, WithStatus(Absent)) == 2;
  }

  /** The overview with every rate over all rows in the window, so that the
      present and absent rates are shares of one whole. */
  function OverallStatsIntended(w: Window, sessions: seq<ClassSession>, attendances: seq<Attendance>): (r: Overview)
    requires KeyedByIndex(sessions)
    ensures r.startDate == w.startDate && r.endDate == w.endDate
    ensures r.totalSessions == |WindowSessions(sessions, w)|
    ensures r.totalAttendances == CountRows(attendances, sessions, w, AnyRow)
    ensures r.presentCount == CountRows(attendances, sessions, w, WithStatus(Present))
    ensures r.absentCount == CountRows(attendances, sessions, w, WithStatus(Absent))
    ensures r.farCheckInCount == CountRows(attendances, sessions, w, FarNoted)
    ensures r.presentRate == Percent(r.presentCount, r.totalAttendances)
    ensures r.absentRate == Percent(r.absentCount, r.totalAttendances)
    ensures r.farCheckInRate == Percent(r.farCheckInCount, r.totalAttendances)
    ensures r.totalAttendances == r.presentCount + r.absentCount
    ensures 0.0 <= r.presentRate <= 100.0 && 0.0 <= r.absentRate <= 100.0 && 0.0 <= r.farCheckInRate <= 100.0
    ensures r.totalAttendances > 0 ==> r.presentRate + r.absentRate == 100.0
    ensures r.totalAttendances == 0 ==> r.presentRate == r.absentRate == r.farCheckInRate == 0.0
  {
    var totalAttendances := CountRows(attendances, sessions, w, AnyRow);
    var presentCount := CountRows(attendances, sessions, w, WithStatus(Present));
    var absentCount := CountRows(attendances, sessions, w, WithStatus(Absent));
    var farCheckInCount := CountRows(attendances, sessions, w, FarNoted);
    PresentPlusAbsent(attendances, sessions, w);
    CountRowsAtMostAll(attendances, sessions, w, FarNoted);
    PercentBounds(presentCount, totalAttendances);
    PercentBounds(absentCount, totalAttendances);
    PercentBounds(farCheckInCount, totalAttendances);
    PercentSplit(presentCount, absentCount);
    Overview(w.startDate, w.endDate, |WindowSessions(sessions, w)|, totalAttendances,
             presentCount, absentCount, farCheckInCount,
             Percent(presentCount, totalAttendances),
             Percent(absentCount, totalAttendances),
             Percent(farCheckInCount, totalAttendances))
  }

  /** Two complementary shares add up to 100 percent. */
  lemma PercentSplit(a: nat, b: nat)
    ensures a + b > 0 ==> Percent(a, a + b) + Percent(b, a + b) == 100.0
  {
    if a + b == 0 { return; }
    var t := (a + b) as real;
    assert a as real / t + b as real / t == 1.0;
  }
}
