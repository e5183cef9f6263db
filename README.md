# Attendance backend: sessions, registrations, students and reports

This project models the core of a NestJS attendance backend for training
classes. It covers:

- **The session catalog.** An administrator creates, updates and
  soft-deletes class sessions, with at most three non-deleted sessions
  created per date. Registration for a session closes two hours before it
  starts.
- **The registration ledger.** A student registers for a session. Checks
  run in this order: the session exists, the deadline has not passed, the
  student is not already registered, the student exists, and the student
  has no other registration on the same date.
- **The student endpoints of the session controller.** A student lists
  the sessions they registered for today, and registers for a session
  under their own profile id.
- **The student service.** Create and update a student account and
  profile, and look a profile up by id or by user id.
- **The three read-only statistics reports:**
  - the weekly absence report;
  - the far check-in report;
  - the overview.

Tables are Dafny sequences indexed by row id, or sets where only
membership matters. Dates are day numbers, `HH:MM` times are minutes after
midnight, and instants are milliseconds. Percentages are exact reals.

The source works in three styles, and the model follows each:

- **Services that change the store** are classes whose fields are the
  tables. Their methods state the whole new state and preserve the store's
  invariants:
  - `Sessions.SessionService`;
  - `Students.StudentService`.
- **Loops in the reports** are methods with loop invariants, each proved
  equal to a specification function:
  - the per-date absence count;
  - the per-student absence lines;
  - the grouping of far check-ins by student.
- **Filters, lookups and arithmetic** are functions and lemmas.

The source takes some inputs from outside the code. The model takes them as
parameters instead:

- the current instant, and "today" as a day number;
- the caller's user id, which the identity layer supplies;
- the outcomes of the media store and the face service.

The three reports require the session table to be keyed by position, as
the service maintains it; the weekly report joins a row to its session by
`id` and the other two by position, which then agree.

`getTodaySessions` of the service is `Sessions.SessionsByDate` applied to
today.

Some behaviour of the code that a reader might not expect, which the model
keeps:

- **Registering for a soft-deleted session is allowed.** The session is
  looked up by id only.
- **Updating a session does not re-check the three-per-date cap.** An
  update may also target a soft-deleted session.
  `Sessions.UpdateCanExceedDailyLimit` exhibits a date that ends up with
  four active sessions.
- **Updating a session does not re-check registrations either.** Moving a
  session onto the date of another session that a student registered for
  leaves the student with two registrations on one date.
  `Sessions.UpdateCanBreakOneRegistrationPerDate` exhibits this.
- **The admin listing's `classId` query parameter is dropped.** The
  service takes a date only.
- **A missing student profile fails with a plain error.** The endpoints do
  not raise a not-found exception.

## Model

| member | source | states |
|---|---|---|
| Sessions.ActiveOn | backend/src/session/session.service.ts:10-13 | the sessions counted against the cap are exactly the non-deleted ones of that date |
| Sessions.SessionService.CreateSession | backend/src/session/session.service.ts:9-33 | fails with the daily-limit error, changing nothing, iff the date already holds three non-deleted sessions; otherwise appends one session whose deadline is its start instant minus two hours; preserves the per-date cap and the one-registration-per-date invariant |
| Sessions.SessionsByDate | backend/src/session/session.service.ts:35-40 | exactly the non-deleted sessions of the date, a permutation of them, ordered by start time |
| Sessions.SessionService.UpdateSession | backend/src/session/session.service.ts:42-65 | not-found iff the id is unknown; otherwise only that session changes: date, name and times replaced, deadline recomputed, deletion flag and class kept |
| Sessions.UpdateCanExceedDailyLimit | backend/src/session/session.service.ts:42-65 | moving a session onto a date holding three active sessions leaves four there: update does not keep the cap |
| Sessions.UpdateCanBreakOneRegistrationPerDate | backend/src/session/session.service.ts:42-65 | moving a session onto the date of another session the same student registered for breaks the one-registration-per-date rule |
| Sessions.SessionService.DeleteSession | backend/src/session/session.service.ts:67-80 | not-found iff the id is unknown; otherwise only the deletion flag of that session is set, deleting twice changes nothing, and the cap and registration invariants are preserved |
| Sessions.RegisterOutcome | backend/src/session/session.service.ts:88-144 | success iff the session exists, the deadline has not passed, the pair is new, the student exists and has no registration on that date; each failure iff its check is the first to fail, in the order session unknown, deadline passed, pair already registered, student unknown, another registration on that date |
| Sessions.SessionService.RegisterForSession | backend/src/session/session.service.ts:87-145 | the result is the registration outcome over the old ledger; a success adds exactly the new (student, session) pair, a failure changes nothing, and the one-registration-per-date invariant is preserved |
| Students.ProfileOfUser | backend/src/session/session.controller.ts:47-49 | the profile owned by the user, or none iff no profile belongs to the user |
| SessionEndpoints.RegisteredIdsOn | backend/src/session/session.controller.ts:56-69 | an id is included iff the student holds a registration for it and its session is dated today, deleted or not |
| SessionEndpoints.KeepIds | backend/src/session/session.controller.ts:77 | keeps exactly the sessions whose id is listed, and keeps start-time order |
| SessionEndpoints.TodayRegisteredSessions | backend/src/session/session.controller.ts:46-78 | fails iff the user has no profile, and then with the missing-profile error; empty when nothing is registered today; otherwise exactly the non-deleted sessions of today the profile registered for, each once, in start-time order |
| SessionEndpoints.RegisterAsUser | backend/src/session/session.controller.ts:83-91 | without a profile fails and changes nothing; with one, the result is the service's registration outcome for the profile id (not the user id), its errors wrapped; a success adds exactly that registration |
| Students.StudentService.CreateStudent | backend/src/student/student.service.ts:18-92 | email conflict first, then student-code conflict, each changing nothing; otherwise one STUDENT user and one profile are appended; a failed avatar upload keeps the rows but returns the error; an uploaded avatar is stored and the face flag follows the face service's outcome; unique keys are preserved |
| Students.StudentService.UpdateStudent | backend/src/student/student.service.ts:94-155 | not-found iff the id is unknown; a failed upload changes nothing; otherwise only that profile changes, with exactly the truthy supplied fields written and the face flag only ever set |
| Students.GetStudentById | backend/src/student/student.service.ts:175-194 | not-found iff no profile has the id; otherwise the profile with that id |
| Students.GetStudentByUserId | backend/src/student/student.service.ts:196-215 | not-found iff no profile belongs to the user; otherwise that user's profile |
| LocationNotes.DigitRunEnd | backend/src/statistics/statistics.service.ts:198 | the greedy `\d+` run: all digits, and followed by a non-digit or the end |
| LocationNotes.MatchesAtIsPattern | backend/src/statistics/statistics.service.ts:198 | the greedy-run test matches at a position iff `\((\d+)m\)` can match there: a `(`, some non-empty digit run, then `m)` |
| LocationNotes.FirstMatchIsLeftmost | backend/src/statistics/statistics.service.ts:198 | the scan returns the capture at the leftmost position where `\((\d+)m\)` matches, and 0 when there is none |
| LocationNotes.ExtractDistance | backend/src/statistics/statistics.service.ts:197-199 | 0 for a null note or a note with no match; otherwise the decimal value of the digits of the leftmost match |
| LocationNotes.ParseDecimalOfDecimal | backend/src/statistics/statistics.service.ts:199 | reading a number's decimal digits back gives the number |
| LocationNotes.ExtractTagged | backend/src/statistics/statistics.service.ts:197-199 | a note holding the tag `(<n>m)` with no `(` before it yields n |
| LocationNotes.FarNoteRoundTrip | backend/src/statistics/statistics.service.ts:142 | the far note of a check-in n metres away passes the far filter and yields n |
| Statistics.JoinByIdIsByPosition | backend/src/statistics/statistics.service.ts:72-75 | in a position-keyed session table, joining a row to its session by id and by position finds the same session |
| Statistics.PercentBounds | backend/src/statistics/statistics.service.ts:121 | a part of a whole is between 0 and 100 percent, and exactly 100 iff the part is the whole |
| Statistics.WindowSessions | backend/src/statistics/statistics.service.ts:14-40 | exactly the non-deleted sessions dated in the range, of the class when one is given |
| Statistics.DistinctDates | backend/src/statistics/statistics.service.ts:91-97 | each date of a window session exactly once |
| Statistics.ClassScope | backend/src/statistics/statistics.service.ts:43-45 | the given class, or else exactly the non-empty class ids of the window's sessions |
| Statistics.EnrolledIn | backend/src/statistics/statistics.service.ts:47-51 | exactly the approved enrollment requests of the classes in scope |
| Statistics.AbsentDates | backend/src/statistics/statistics.service.ts:105-114 | a date is absent iff the student checked in to no window session of that date |
| Statistics.CountAbsentDays | backend/src/statistics/statistics.service.ts:102-114 | total days is the number of dates; absent days is the number of absent dates, never more than the total |
| Statistics.FullAttendanceHasNoAbsence | backend/src/statistics/statistics.service.ts:105-121 | an enrolled student checked in on every date has no absent date, and their report line has 0 absent days and a 100 percent rate |
| Statistics.AbsenceLines | backend/src/statistics/statistics.service.ts:100-123 | one line per enrollment, in order, equal to the specification of a line |
| Statistics.AbsencesOfLines | backend/src/statistics/statistics.service.ts:116-122 | every line spans all dates, has absent days at most total days, and carries the attendance rate of its counts |
| Statistics.WeeklyAbsenceStats | backend/src/statistics/statistics.service.ts:12-134 | the report's range and day count; its lines are a permutation of the per-enrollment lines, sorted by absent days, most first, each with its own rate |
| Statistics.FarRows | backend/src/statistics/statistics.service.ts:140-182 | exactly the checked-in rows whose note contains the far marker and whose session is in the window |
| Statistics.IndexOfStudent | backend/src/statistics/statistics.service.ts:188 | the position of the student's line, or -1 iff the student has none |
| Statistics.AddRowIds | backend/src/statistics/statistics.service.ts:185-195 | one reduce step adds the row's student to the line ids and keeps one line per student |
| Statistics.AddRowEntries | backend/src/statistics/statistics.service.ts:196-208 | after one reduce step, every line holds exactly its student's entries so far, in order, and counts them |
| Statistics.AddRowSum | backend/src/statistics/statistics.service.ts:208 | one reduce step adds exactly one to the sum of the counts |
| Statistics.GroupedIsGrouping | backend/src/statistics/statistics.service.ts:185-211 | the grouping has one line per student, each with exactly that student's check-ins in row order and their count, a line for every row's student, and counts summing to the row count |
| Statistics.GroupByStudent | backend/src/statistics/statistics.service.ts:185-211 | the reduce loop computes the grouping |
| Statistics.MaxOf | backend/src/statistics/statistics.service.ts:216 | an element of the distances no smaller than any of them |
| Statistics.SumBetween | backend/src/statistics/statistics.service.ts:217 | a sum of values between lo and hi lies between n*lo and n*hi |
| Statistics.RoundedMeanBetween | backend/src/statistics/statistics.service.ts:217-222 | the rounded mean of values between lo and hi lies between lo and hi |
| Statistics.RoundedMeanNearest | backend/src/statistics/statistics.service.ts:217-222 | the rounded mean is the integer nearest to sum / n, halves rounded up |
| Statistics.Summarize | backend/src/statistics/statistics.service.ts:214-223 | keeps the line's student, entries and count, and sets the maximum distance (one of the distances, bounding all) and the average (the mean distance rounded to the nearest integer) |
| Statistics.SummariesKeepStudents | backend/src/statistics/statistics.service.ts:214-224 | summarizing keeps the set of students |
| Statistics.FarCheckInStats | backend/src/statistics/statistics.service.ts:139-235 | the total is the number of far check-ins and equals the sum of the per-student counts; every far check-in's student has a line; each line holds exactly its student's check-ins, latest first, with their maximum and rounded mean distance; lines are sorted by count, most first |
| Statistics.CountRowsAtMostAll | backend/src/statistics/statistics.service.ts:256-297 | any filtered count is at most the count of all rows in the window |
| Statistics.PresentPlusAbsent | backend/src/statistics/statistics.service.ts:275-289 | the present and absent counts add up to all rows in the window |
| Statistics.OverallStats | backend/src/statistics/statistics.service.ts:240-311 | the session total counts the window's sessions; the attendance total counts exactly the checked-in rows of the window, while the present, absent and far counts count the rows of their kind with or without a check-in (present plus absent is all rows); each rate is its count over the checked-in total |
| Statistics.AbsentRateCanExceedHundred | backend/src/statistics/statistics.service.ts:256-309 | one checked-in PRESENT row and two ABSENT rows without check-in give an absent rate of 200 and rates summing to 300 |
| Statistics.OverallStatsIntended | backend/src/statistics/statistics.service.ts:299-310 | the attendance total counts all rows of the window and the present, absent and far counts the rows of their kind; each rate is its count over that total, lies in 0..100, and present plus absent is 100 whenever there are rows |
| Statistics.PercentSplit | backend/src/statistics/statistics.service.ts:307-308 | two complementary shares add up to 100 percent |
| Seqs.SortBy | backend/src/statistics/statistics.service.ts:126 | a permutation of the input, in non-decreasing key order |
| Seqs.SumByPermutation | backend/src/statistics/statistics.service.ts:227-232 | reordering the lines does not change the sum of their counts |

## Left out

- **Clock, timezone and date parsing.** The current instant and "today"
  are parameters. A date is a day number and a time is minutes; the text
  forms and their parsing (`split(':')`, `new Date(...)`,
  `toISOString`) are not modelled.
- **Floating point.** Rates, averages and `Math.round` use exact
  rationals and integer rounding (half up), which is what `Math.round`
  does for the non-negative averages here. IEEE rounding is not modelled.
- **`parseInt` precision.** The digit string is read as an unbounded
  integer.
- **Password hashing.** The model has no password. Hashing is a call into
  the authentication service.
- **`getAllStudents`.** It is a plain listing with no logic to state.
- **Included relation fields.** Selected user, class and student columns
  that the queries attach to each row are left out.
- **Other fields left out:**
  - a registration's `registeredAt`;
  - an attendance row's check-out time, coordinates and face scores.
- **External services.** The media store and the face service are
  outcomes the caller supplies; their own behaviour is not modelled.
- **Concurrency.** Requests are atomic. Two concurrent registrations can
  race past the same-date check in the source; the model does not show
  this.
- **The recorder that writes attendance rows.** That code is not part of
  this model. Its note format is assumed as `LocationNotes.FarNote`.
- **The source's two `!user.studentProfile` branches.** They cannot be
  reached once the nested create succeeds, so they are not modelled.
- **In-place sorts.** The JavaScript in-place `sort` calls are modelled as
  values.
- Seqs.SortBy: the sort is stable, but stability and the order among
  equal keys (the store's tie order) are not stated or proved.
- Statistics.WeeklyAbsenceStats: the window's sessions are taken in table
  order, not date order. This changes only the order of the grouping's
  keys, which no result depends on.
- Statistics.FarCheckInStats: does not restate after the final sort that
  each student has one line. `Statistics.GroupedIsGrouping` proves this
  before the sort, and sorting is a permutation.

## Findings

| source | as written | input that shows it | evidently intended | confidence | as-written member | corrected member |
|---|---|---|---|---|---|---|
| backend/src/statistics/statistics.service.ts:256-309 | `totalAttendances` counts only rows with a check-in, but the PRESENT, ABSENT and far counts do not require a check-in. The rates divide those counts by `totalAttendances`. | One PRESENT row with a check-in and two ABSENT rows without one, in the window: the absent rate is 200 and the present and absent rates add up to 300 | present and absent rates as shares of all rows in the window, each at most 100 and summing to 100 | not executed | Statistics.AbsentRateCanExceedHundred | Statistics.OverallStatsIntended |
