# Campus events: schema and reports, in Dafny

This project models `prototype.py`, a small campus-event system built on SQLite. The model covers:

- **The store**: the five tables `setup_database` creates (Colleges, Students, Events, Registrations, AttendanceFeedback). Their rows are datatypes, and nullable columns are `Option`s. The constraints the DDL declares are the predicate `Schema.WellFormed`: primary keys, foreign keys and UNIQUE (student_id, event_id).
- **The inserts**: the INSERT statements that fill the tables. `Database.InsertAsWritten` is an insert as SQLite runs it on the program's connections. It checks PRIMARY KEY and UNIQUE but not FOREIGN KEY, and it is proved to keep every key unique, which is what the reports need. `Database.CampusDatabase` is a class whose fields are the five tables. Its `InsertRow` method is the corrected insert `Database.Insert`, which also enforces the declared foreign keys (see Findings). It agrees with the program on every sample row, because all of their references resolve. The sample rows `populate_sample_data` inserts are proved to satisfy every constraint.
- **The five reports**: `get_event_popularity`, `get_student_participation`, `get_top_active_students`, `get_event_attendance_report` and `get_event_feedback_report`, as pure functions over a store. Each query is written clause by clause, in SQL's own evaluation order:
  - the joins as `FlatMap`;
  - WHERE as `Filter`;
  - GROUP BY as one group per row of the key table, kept when non-empty;
  - the SELECT list as an aggregate;
  - ORDER BY as a permutation sorted by the comparator;
  - LIMIT as a prefix.
  
  For three of the grouped reports (popularity, attendance, feedback), a direct definition of what the report should contain (`RowOf`, `RowsOf`) is proved equal to the query's result up to order. Membership in each of them is characterised as an if-and-only-if.

  The top-students report is different, because LIMIT applies after ORDER BY. There `RowsOf` over the active students is proved equal to the rows the query ranks before LIMIT. The report itself is proved to be a sorted sub-multiset of those rows, with LIMIT's length, such that no row left out outranks a row kept. Only one direction of membership is proved: every reported row belongs to an active student. With LIMIT and ties in the count, no if-and-only-if can hold in general.

  For the participation report, which does not group, the model proves which rows it returns, as an if-and-only-if. It also proves how many times each row comes back: once per distinct combination of student, registration, event and attendance row that yields it.
- **The percentage the caller derives** from the attendance report, with its guard against division by zero.

SQL semantics the model keeps:

- NULL never equals anything, so a NULL reference joins nothing.
- COUNT(column) skips NULLs.
- A LEFT JOIN row without a match carries NULLs.
- A negative LIMIT means no limit.
- ORDER BY leaves the order of equal keys unspecified, so every sorted report is specified only as sorted and a permutation.
- Text is ordered by SQLite's BINARY collation, character by character, with a proper prefix first.

Where the code and its design description differ, the model follows the code:

- `get_top_active_students` never consults Events, so attendances at cancelled events count. `TopStudents.TopStudentsIgnoreEvents` proves that the Events table has no effect on it.
- `get_event_feedback_report` averages every non-NULL score, whether or not the attendee was marked present. `FeedbackReport.EventScoresMembership` proves that presence plays no part.
- The attendance report's `COUNT(r.reg_id)` counts joined rows, so a registration with two attendance rows counts twice. The model keeps that behaviour. `AttendanceReport.RegistrationCountExact` proves the count equals the number of the event's registrations exactly when each of them has at most one attendance row. The schema does not enforce that.

## Model

| member | source | states |
|---|---|---|
| Schema.EmptyStoreWellFormed | prototype.py:12-72 | the freshly created, empty tables satisfy every declared constraint |
| Schema.WellFormed | prototype.py:20-72 | the constraints the DDL declares (every primary key, UNIQUE (student_id, event_id) with NULL-aware comparison, every foreign key for its non-NULL references); a store that meets them has the unique ids the reports group and join by |
| Schema.WellFormedReferences | prototype.py:51-72 | under the schema, a registration's non-NULL student and event ids and an attendance row's non-NULL reg_id name existing rows, and no two registrations share a (student_id, event_id) pair |
| Database.InsertAsWritten | prototype.py:9-72 | the engine as the program configures it: an insert succeeds iff the primary key and UNIQUE checks pass, and then it appends the row; foreign keys are not checked |
| Database.AsWrittenKeepsKeys | prototype.py:20-72 | on a store whose keys are unique, the engine as written accepts a row exactly when every key is still unique afterwards, and the store it leaves meets the reports' requirement of unique keys, dangling references or not |
| Database.Insert | prototype.py:20-72 | an insert that also enforces the declared foreign keys: it succeeds iff the keys are fresh, the pair is unique and every non-NULL reference resolves |
| Database.CollegeKeysAppend | prototype.py:22 | appending a college keeps college_id unique iff its id is new |
| Database.StudentKeysAppend | prototype.py:30 | appending a student keeps student_id unique iff its id is new |
| Database.EventKeysAppend | prototype.py:40 | appending an event keeps event_id unique iff its id is new |
| Database.RegistrationAppend | prototype.py:53-59 | appending a registration keeps reg_id unique iff its id is new, and keeps (student_id, event_id) unique iff no existing row has the same non-NULL pair |
| Database.AttendanceKeysAppend | prototype.py:66 | appending an attendance row keeps attendance_id unique iff its id is new |
| Database.InsertKeepsWellFormed | prototype.py:20-72 | on a well-formed store, the enforcing insert succeeds exactly when the store it produces is well formed |
| Database.InsertRefinesAsWritten | prototype.py:20-72 | whatever the enforcing insert accepts, the engine as written accepts with the same result; both reject a duplicate key |
| Database.ForeignKeysNotEnforced | prototype.py:51-61 | the engine as written accepts, into empty tables, a registration naming a student and an event that do not exist, leaving a store that is not well formed; the enforcing insert rejects it |
| Database.CampusDatabase.constructor | prototype.py:7-76 | after setup every table is empty and the store is well formed |
| Database.CampusDatabase.InsertRow | prototype.py:85-137 | the corrected INSERT, which also enforces foreign keys: it appends the row exactly when every declared constraint admits it, otherwise changes nothing, and the store stays well formed; the program's own inserts skip the foreign-key check, and agree with this one on the sample rows because their references resolve |
| SampleData.SampleWellFormed | prototype.py:78-142 | the sample colleges, students, events, registrations and attendance rows satisfy every declared constraint |
| Ordering.SortBy | prototype.py:165-168 | ORDER BY yields a permutation of its input that is sorted by the comparator |
| Ordering.Limit | prototype.py:214 | LIMIT n keeps the first min(n, length) rows, and all rows when n is negative |
| Ordering.LimitKeepsLeaders | prototype.py:213-214 | a limited sorted sequence is sorted, drawn from the input, and every dropped row may be listed after every kept one |
| Ordering.TopRows | prototype.py:213-214 | ORDER BY then LIMIT n gives a sorted sub-multiset of the rows, of the length LIMIT gives, whose every row ranks ahead of every row left out |
| Ordering.TextLeTotal | prototype.py:237 | the binary text order compares any two names |
| Ordering.TextLeTransitive | prototype.py:237 | the binary text order is transitive |
| Popularity.MoreRegistrationsOrders | prototype.py:167 | ORDER BY registration_count DESC is a total preorder |
| Popularity.EventPopularity | prototype.py:146-173 | the report is a permutation of the grouped rows, sorted by registration count, descending |
| Popularity.LeftJoinOfEvent | prototype.py:156-157 | the LEFT JOIN gives every event at least one row, each carrying that event |
| Popularity.LeftJoinCount | prototype.py:155-157 | COUNT(r.reg_id) over an event's LEFT JOIN rows is the number of registrations referencing the event (0 for the NULL row) |
| Popularity.GroupOfEvent | prototype.py:156-166 | with unique event ids, an event's group holds its LEFT JOIN rows if the event passes the WHERE clause, and is empty otherwise |
| Popularity.GroupRowOfEvent | prototype.py:152-166 | the k-th event contributes its expected row exactly when it is scheduled and of the requested type |
| Popularity.GroupedFrom | prototype.py:151-168 | grouping the events yields, in table order, one expected row per listed event |
| Popularity.PopularityIsOneRowPerListedEvent | prototype.py:146-173 | the report holds exactly one row per scheduled event of the requested type: its name, its type and its registration count |
| Popularity.PopularityMembership | prototype.py:151-168 | a row is reported iff it is the row of a scheduled event of the requested type; a cancelled event is never reported |
| Popularity.UnregisteredEventCountsZero | prototype.py:155-157 | a listed event without registrations is still reported, with count 0 |
| Popularity.TypeFilterSelectsExactType | prototype.py:161-163 | with a non-empty type filter, every reported row has exactly that type |
| Popularity.EmptyTypeFilterIsNoFilter | prototype.py:161-163 | an empty type string, which is falsy, filters nothing, just like no type |
| Participation.ProjectAll | prototype.py:181-184 | the SELECT list keeps one row per joined row, the i-th being the projection of the i-th joined row, and a projected row appears iff some joined row projects to it |
| Participation.StudentParticipation | prototype.py:175-195 | every reported row carries the requested student name |
| Participation.ProjectCount | prototype.py:181-184 | a projected row occurs as many times as there are joined rows that project to it |
| Participation.JoinedDistinct | prototype.py:185-188 | with the primary keys of the four tables, the join lists no combination twice |
| Participation.SourcesAreSelected | prototype.py:185-189 | the joined rows that pass the WHERE clause and project to a row are exactly the linked (student, registration, scheduled event, present attendance) combinations giving that row |
| Participation.ParticipationMultiplicity | prototype.py:180-189 | each row is reported once per distinct combination of a student of that name, its registration, the scheduled event it names and a present attendance row for it, so two such students or two present attendance rows on one registration repeat the row |
| Participation.JoinedSound | prototype.py:185-188 | every row of the four-way inner join comes from the four tables and satisfies the three ON conditions |
| Participation.JoinedComplete | prototype.py:185-188 | every combination of table rows that satisfies the ON conditions is a row of the join |
| Participation.ReportedRowIsJoinable | prototype.py:180-189 | every reported row comes from a joinable, present, scheduled attendance of a student with the given name |
| Participation.JoinableRowIsReported | prototype.py:180-189 | every such attendance is reported |
| Participation.ParticipationMembership | prototype.py:180-189 | a row is reported iff some student of that name has a registration for a scheduled event and a present attendance row for it |
| Participation.NoPresentAttendanceMeansEmpty | prototype.py:189 | without a present attendance at a scheduled event for that name, the report is empty |
| Participation.ParticipationRowsAreScheduled | prototype.py:182-189 | every reported row carries the requested name and the name and date of a scheduled event |
| TopStudents.MoreActiveOrders | prototype.py:213 | ORDER BY attended_events_count DESC is a total preorder |
| TopStudents.TopActiveStudents | prototype.py:197-220 | requiring only unique student and college ids (Events is never read), the report has at most `limit` rows, exactly as many as LIMIT gives, is sorted by count descending, is drawn from the grouped rows, and every row left out has a count no greater than every row kept |
| TopStudents.AtMostOneCollege | prototype.py:210 | with unique college ids a student's college_id matches at most one college |
| TopStudents.NoCollegeNoRows | prototype.py:210 | a student whose college_id matches no college has no joined rows |
| TopStudents.PresentRowsOfStudent | prototype.py:206-211 | a student has present joined rows iff active, and then exactly as many as its present attendance rows, all carrying its college |
| TopStudents.GroupIsStudentRows | prototype.py:211-212 | with unique student ids, a student's group is its present joined rows |
| TopStudents.GroupOfStudent | prototype.py:203-212 | a student's group is non-empty iff it is active, and then aggregates to its name, its college's name and its present count |
| TopStudents.GroupedFrom | prototype.py:202-213 | grouping the students yields, in table order, one expected row per active student |
| TopStudents.GroupedIsOneRowPerActiveStudent | prototype.py:202-212 | the ranked rows are exactly one per active student |
| TopStudents.TopActiveStudentsOfActive | prototype.py:197-220 | the report in terms of the active students: exactly LIMIT's share of one `RowOf` row per active student, sorted by count descending, a sub-multiset of those rows, and no active student left out has a higher count than one kept |
| TopStudents.RankedStudent | prototype.py:202-212 | each ranked row is the row of an active student in the table |
| TopStudents.TopStudentsAreActive | prototype.py:202-214 | every reported student has a college its college_id names and at least one present attendance row, and the row carries that college's name and the present count |
| TopStudents.GroupedIgnoresEvents | prototype.py:207-212 | the grouped rows do not depend on the Events table |
| TopStudents.TopStudentsIgnoreEvents | prototype.py:207-211 | replacing the Events table by any other leaves the report and its precondition unchanged: cancelled events count like scheduled ones |
| EventJoin.RowsOfRegistration | prototype.py:234 | a registration's LEFT JOIN rows carry the event, the registration and one of its attendance rows or NULL |
| EventJoin.RowsOfEvent | prototype.py:232-234 | every event has at least one row in the two LEFT JOINs, each carrying that event |
| EventJoin.GroupOfEvent | prototype.py:232-236 | with unique event ids, an event's group is its joined rows that pass the WHERE clause |
| EventJoin.AttendanceRowsHaveRegistration | prototype.py:233-234 | a joined row that carries an attendance row also carries its registration |
| AttendanceReport.ByNameOrders | prototype.py:237 | ORDER BY e.event_name is a total preorder |
| AttendanceReport.EventAttendanceReport | prototype.py:222-243 | the report is a permutation of the grouped rows, sorted by event name |
| AttendanceReport.AttendancePercentage | prototype.py:303 | the percentage is 0 when nothing is registered or nothing attended, lies in 0..100 when attendances do not exceed registrations, and otherwise times the registration count equals 100 times the attendance count |
| AttendanceReport.JoinedRowsOfAttendance | prototype.py:230-234 | a registration's attendance rows each give one counted row, present ones one attended row |
| AttendanceReport.JoinedRowsOfRegistration | prototype.py:230-234 | a registration contributes max(1, its attendance rows) to COUNT(r.reg_id) and its present rows to the SUM |
| AttendanceReport.JoinedRowsOfRegistrations | prototype.py:230-234 | over an event's registrations the counts add up |
| AttendanceReport.EventCounts | prototype.py:228-236 | a scheduled event's group aggregates to its name, its joined registration rows and its present attendance rows |
| AttendanceReport.GroupedFrom | prototype.py:227-238 | grouping the events yields one expected row per scheduled event, in table order |
| AttendanceReport.AttendanceIsOneRowPerScheduledEvent | prototype.py:227-238 | the report holds exactly one row per scheduled event, with the expected counts |
| AttendanceReport.AttendanceMembership | prototype.py:227-238 | a row is reported iff it is the row of a scheduled event; cancelled events are never reported |
| AttendanceReport.JoinedRegistrationRowsBounds | prototype.py:230 | the joined-row count of a list of registrations is at least its length, and equal to it exactly when each has at most one attendance row |
| AttendanceReport.AttendanceWithinRegistrations | prototype.py:230-231 | in every row the attendance count is at most the registration count, so the percentage lies in 0..100 |
| AttendanceReport.RegistrationCountExact | prototype.py:230 | the registration count is the number of the event's registrations exactly when each of them has at most one attendance row |
| AttendanceReport.NoPresenceCountsZero | prototype.py:231 | an event with no present attendance row has attendance count 0 and percentage 0 |
| FeedbackReport.HigherAverageOrders | prototype.py:259 | ORDER BY average_score DESC is a total preorder |
| FeedbackReport.EventFeedbackReport | prototype.py:245-265 | the report is a permutation of the grouped rows, sorted by average, descending |
| FeedbackReport.ScoreValues | prototype.py:253 | the scores AVG reads from attendance rows are exactly their non-NULL feedback scores |
| FeedbackReport.RowScoresConcat | prototype.py:253 | the scores of two runs of rows are the scores of each, concatenated |
| FeedbackReport.ScoresOfRegistrations | prototype.py:255-257 | the scored joined rows of a scheduled event's registrations give exactly those registrations' non-NULL scores |
| FeedbackReport.EventGroupScores | prototype.py:253-257 | a scheduled event's group carries exactly its scores, and is empty iff it has none |
| FeedbackReport.GroupRowOfEvent | prototype.py:250-258 | the k-th event contributes its expected row exactly when it is scheduled and has at least one score |
| FeedbackReport.GroupedFrom | prototype.py:250-259 | grouping the events yields one expected row per rated event, in table order |
| FeedbackReport.FeedbackIsOneRowPerRatedEvent | prototype.py:250-259 | the report holds one row per scheduled event with at least one score, carrying the mean of its scores |
| FeedbackReport.FeedbackMembership | prototype.py:250-259 | a row is reported iff it is the row of a scheduled event with a score; events with no score are absent |
| FeedbackReport.EventScoresMembership | prototype.py:253-257 | a score is averaged for an event iff some attendance row of one of its registrations carries it; presence is not consulted |
| FeedbackReport.SumBounds | prototype.py:253 | a sum of n values in lo..hi lies in lo*n..hi*n |
| FeedbackReport.MeanBounds | prototype.py:253 | the mean lies within any bounds of the values it averages |
| FeedbackReport.FeedbackAverageBounds | prototype.py:253 | when every stored score lies in lo..hi, every reported average does too |

## Left out

- Connections, commits, `DROP TABLE IF EXISTS` and closing the database are not modelled. Each report is a function of the store, and the constructor of `CampusDatabase` stands for a fresh setup.
- `uuid.uuid4()` keys and `datetime.now()` / `datetime(...)` values are replaced by fixed text. DATETIME columns are kept as opaque text, since no report compares or computes with them.
- The `print` calls, the `__main__` driver, and the `:.2f` formatting of its output are not modelled.
- Floating point: AVG and the percentage are exact `real` values, not IEEE doubles, so rounding is not modelled.
- Ordering.SortBy: fixes one order for rows with equal sort keys, while SQLite's order is unspecified. Every report contract therefore states only "sorted and a permutation", never a particular tie order.
- The participation query has no ORDER BY, so its row order is not specified. Its contracts state which rows come back (`Participation.ParticipationMembership`) and how often (`Participation.ParticipationMultiplicity`).
- Primary-key columns are modelled as non-NULL. SQLite would accept a NULL in a non-INTEGER PRIMARY KEY column, but no code path inserts one.
- Type affinity is not modelled. Columns hold the types the program puts in them, and `is_present` is a boolean.
- SampleData.SampleWellFormed: proves that the sample rows satisfy every constraint, but does not compute the five reports on them.

## Findings

| source | as written | input that shows it | evidently intended | confidence | as-written member | corrected member |
|---|---|---|---|---|---|---|
| prototype.py:51-61 | FOREIGN KEY clauses are declared, but the connections never run `PRAGMA foreign_keys = ON`, so SQLite does not enforce them | inserting `Registration("r1", "s1", "e1", ...)` into the freshly created tables succeeds, though neither student s1 nor event e1 exists | an insert whose references name no existing row is rejected | not executed | Database.ForeignKeysNotEnforced | Database.InsertKeepsWellFormed |
