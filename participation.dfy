/**
 * `get_student_participation` (prototype.py:175-195): for a student name, the
 * scheduled events that a student of that name registered for and was marked
 * present at, as (student_name, event_name, event_date) rows. The query has no
 * ORDER BY, so only which rows come back, and how often, is specified.
 */
module Participation {
  import opened Schema
  import opened Relational

  /** A row of Students s JOIN Registrations r JOIN Events e JOIN AttendanceFeedback af. */
  datatype JoinRow = JoinRow(student: Student, reg: Registration, event: Event, att: Attendance)

  /** A row of the report: (student_name, event_name, event_date). */
  datatype ParticipationRow = ParticipationRow(studentName: string, eventName: string, eventDate: Timestamp)

  function WithAttendance(s: Student, r: Registration, e: Event): Attendance -> seq<JoinRow> {
    (a: Attendance) => [JoinRow(s, r, e, a)]
  }

  /** ... JOIN AttendanceFeedback af ON r.reg_id = af.reg_id */
  function WithEvent(atts: seq<Attendance>, s: Student, r: Registration): Event -> seq<JoinRow> {
    (e: Event) => FlatMap(AttendanceOf(atts, r.regId), WithAttendance(s, r, e))
  }

  /** ... JOIN Events e ON r.event_id = e.event_id */
  function WithRegistration(db: Store, s: Student): Registration -> seq<JoinRow> {
    (r: Registration) => FlatMap(EventsWithKey(db.events, r.eventId), WithEvent(db.attendance, s, r))
  }

  /** ... JOIN Registrations r ON s.student_id = r.student_id */
  function WithStudent(db: Store): Student -> seq<JoinRow> {
    (s: Student) => FlatMap(RegistrationsOfStudent(db.registrations, s.studentId), WithRegistration(db, s))
  }

  /** FROM Students s JOIN Registrations r JOIN Events e JOIN AttendanceFeedback af */
  function Joined(db: Store): seq<JoinRow> {
    FlatMap(db.students, WithStudent(db))
  }

  /** The join conditions: the four rows of a joined row belong together. */
  predicate Linked(row: JoinRow) {
    && row.reg.studentId == Some(row.student.studentId)
    && row.reg.eventId == Some(row.event.eventId)
    && row.att.regId == Some(row.reg.regId)
  }

  /** WHERE s.student_name = ? AND af.is_present = 1 AND e.event_status = 'Scheduled' */
  predicate Attended(row: JoinRow, name: string) {
    row.student.studentName == name && row.att.isPresent && row.event.eventStatus == Scheduled
  }

  function Where(name: string): JoinRow -> bool {
    (row: JoinRow) => Attended(row, name)
  }

  function Project(row: JoinRow): ParticipationRow {
    ParticipationRow(row.student.studentName, row.event.eventName, row.event.eventDate)
  }

  /** SELECT s.student_name, e.event_name, e.event_date */
  function ProjectAll(rows: seq<JoinRow>): (r: seq<ParticipationRow>)
    ensures |r| == |rows|
    ensures forall i :: 0 <= i < |r| ==> r[i] == Project(rows[i])
    ensures forall p :: p in r <==> exists row :: row in rows && p == Project(row)
  {
    if rows == [] then []
    else
      assert forall row :: row in rows <==> row == rows[0] || row in rows[1..];
      [Project(rows[0])] + ProjectAll(rows[1..])
  }

  /** The report: one row per joined row that passes the WHERE clause, in join order. */
  function StudentParticipation(db: Store, name: string): (report: seq<ParticipationRow>)
    ensures forall p :: p in report ==> p.studentName == name
  {
    ProjectAll(Filter(Joined(db), Where(name)))
  }

  // ---------------------------------------------------------------------------
  // What the report means.

  lemma RowsWithEvent(atts: seq<Attendance>, s: Student, r: Registration, e: Event, row: JoinRow)
    requires row in WithEvent(atts, s, r)(e)
    ensures row.student == s && row.reg == r && row.event == e
    ensures row.att in atts && row.att.regId == Some(r.regId)
  {
    var a :| a in AttendanceOf(atts, r.regId) && row in WithAttendance(s, r, e)(a);
  }

  lemma RowsWithRegistration(db: Store, s: Student, r: Registration, row: JoinRow)
    requires row in WithRegistration(db, s)(r)
    ensures row.student == s && row.reg == r
    ensures row.event in db.events && r.eventId == Some(row.event.eventId)
    ensures row.att in db.attendance && row.att.regId == Some(r.regId)
  {
    var e :| e in EventsWithKey(db.events, r.eventId) && row in WithEvent(db.attendance, s, r)(e);
    RowsWithEvent(db.attendance, s, r, e, row);
  }

  lemma RowsWithStudent(db: Store, s: Student, row: JoinRow)
    requires row in WithStudent(db)(s)
    ensures row.student == s && row.reg in db.registrations && row.event in db.events
    ensures row.att in db.attendance && Linked(row)
  {
    var r :| r in RegistrationsOfStudent(db.registrations, s.studentId) && row in WithRegistration(db, s)(r);
    RowsWithRegistration(db, s, r, row);
  }

  /** Every row of the join is made of rows of the four tables that satisfy the join conditions. */
  lemma JoinedSound(db: Store, row: JoinRow)
    requires row in Joined(db)
    ensures row.student in db.students && row.reg in db.registrations
    ensures row.event in db.events && row.att in db.attendance && Linked(row)
  {
    var s :| s in db.students && row in WithStudent(db)(s);
    RowsWithStudent(db, s, row);
  }

  /** Every combination of rows that satisfies the join conditions is a row of the join. */
  lemma JoinedComplete(db: Store, row: JoinRow)
    requires row.student in db.students && row.reg in db.registrations
    requires row.event in db.events && row.att in db.attendance && Linked(row)
    ensures row in Joined(db)
  {
    var s, r, e, a := row.student, row.reg, row.event, row.att;
    assert a in AttendanceOf(db.attendance, r.regId);
    assert row in WithAttendance(s, r, e)(a);
    assert row in WithEvent(db.attendance, s, r)(e);
    assert e in EventsWithKey(db.events, r.eventId);
    assert row in WithRegistration(db, s)(r);
    assert r in RegistrationsOfStudent(db.registrations, s.studentId);
    assert row in WithStudent(db)(s);
  }

  /** Rows of the four tables that satisfy the join conditions. */
  predicate Joinable(db: Store, row: JoinRow) {
    && row.student in db.students && row.reg in db.registrations
    && row.event in db.events && row.att in db.attendance
    && Linked(row)
  }

  /**
   * A row is reported for `name` exactly when some student of that name has a
   * registration for a scheduled event and an attendance row for that registration
   * marked present; the row gives that student's name and the event's name and date.
   */
  lemma ParticipationMembership(db: Store, name: string, p: ParticipationRow)
    ensures p in StudentParticipation(db, name) <==>
      exists row :: Joinable(db, row) && Attended(row, name) && p == Project(row)
  {
    if p in StudentParticipation(db, name) {
      var row := ReportedRowIsJoinable(db, name, p);
    } else {
      forall row | Joinable(db, row) && Attended(row, name) ensures p != Project(row) {
        JoinableRowIsReported(db, name, row);
      }
    }
  }

  lemma ReportedRowIsJoinable(db: Store, name: string, p: ParticipationRow) returns (row: JoinRow)
    requires p in StudentParticipation(db, name)
    ensures Joinable(db, row) && Attended(row, name) && p == Project(row)
  {
    row := SelectedFrom(Joined(db), name, p);
    JoinedSound(db, row);
  }

  /** A reported row is the projection of a joined row that passes the WHERE clause. */
  lemma SelectedFrom(rows: seq<JoinRow>, name: string, p: ParticipationRow) returns (row: JoinRow)
    requires p in ProjectAll(Filter(rows, Where(name)))
    ensures row in rows && Attended(row, name) && p == Project(row)
  {
    row :| row in Filter(rows, Where(name)) && p == Project(row);
  }

  lemma JoinableRowIsReported(db: Store, name: string, row: JoinRow)
    requires Joinable(db, row) && Attended(row, name)
    ensures Project(row) in StudentParticipation(db, name)
  {
    var w := Filter(Joined(db), Where(name));
    JoinedComplete(db, row);
    assert row in w;
  }

  /**
   * No student of that name has a present attendance at a scheduled event it is
   * registered for: the report is empty.
   */
  lemma NoPresentAttendanceMeansEmpty(db: Store, name: string)
    requires forall row :: Joinable(db, row) ==> !Attended(row, name)
    ensures StudentParticipation(db, name) == []
  {
    if StudentParticipation(db, name) != [] {
      var p := StudentParticipation(db, name)[0];
      ParticipationMembership(db, name, p);
    }
  }

  /** Every reported row names the requested student and comes from a scheduled event. */
  lemma ParticipationRowsAreScheduled(db: Store, name: string, p: ParticipationRow)
    requires p in StudentParticipation(db, name)
    ensures p.studentName == name
    ensures exists e ::
      e in db.events && e.eventStatus == Scheduled && p.eventName == e.eventName && p.eventDate == e.eventDate
  {
    ParticipationMembership(db, name, p);
  }

  // ---------------------------------------------------------------------------
  // How often a row is reported.

  function RowStudent(): JoinRow -> Student { (row: JoinRow) => row.student }
  function RowRegistration(): JoinRow -> Registration { (row: JoinRow) => row.reg }
  function RowEvent(): JoinRow -> Event { (row: JoinRow) => row.event }
  function RowAttendance(): JoinRow -> Attendance { (row: JoinRow) => row.att }

  function ProjectsTo(p: ParticipationRow): JoinRow -> bool {
    (row: JoinRow) => Project(row) == p
  }

  /** The primary keys of the four joined tables. */
  predicate JoinKeysUnique(db: Store) {
    && StudentKeysUnique(db.students)
    && RegistrationKeysUnique(db.registrations)
    && EventKeysUnique(db.events)
    && AttendanceKeysUnique(db.attendance)
  }

  /**
   * The combinations of a student named `name`, one of its registrations, the
   * scheduled event it names and a present attendance row for it, that give `p`.
   */
  function Sources(db: Store, name: string, p: ParticipationRow): set<JoinRow> {
    set s, r, e, a |
      && s in db.students && r in db.registrations && e in db.events && a in db.attendance
      && Linked(JoinRow(s, r, e, a)) && Attended(JoinRow(s, r, e, a), name)
      && Project(JoinRow(s, r, e, a)) == p
      :: JoinRow(s, r, e, a)
  }

  lemma EventRowsDistinct(atts: seq<Attendance>, s: Student, r: Registration, e: Event)
    requires AttendanceKeysUnique(atts)
    ensures Distinct(WithEvent(atts, s, r)(e))
  {
    assert Distinct(atts);
    FilterDistinct(atts, ForRegistration(r.regId));
    forall a, y | a in AttendanceOf(atts, r.regId) && y in WithAttendance(s, r, e)(a)
      ensures RowAttendance()(y) == a
    {}
    FlatMapDistinct(AttendanceOf(atts, r.regId), WithAttendance(s, r, e), RowAttendance());
  }

  lemma RegistrationRowsDistinct(db: Store, s: Student, r: Registration)
    requires EventKeysUnique(db.events) && AttendanceKeysUnique(db.attendance)
    ensures Distinct(WithRegistration(db, s)(r))
  {
    assert Distinct(db.events);
    FilterDistinct(db.events, KeyedBy(r.eventId));
    var es := EventsWithKey(db.events, r.eventId);
    forall e | e in es ensures Distinct(WithEvent(db.attendance, s, r)(e)) {
      EventRowsDistinct(db.attendance, s, r, e);
    }
    forall e, y | e in es && y in WithEvent(db.attendance, s, r)(e) ensures RowEvent()(y) == e {
      RowsWithEvent(db.attendance, s, r, e, y);
    }
    FlatMapDistinct(es, WithEvent(db.attendance, s, r), RowEvent());
  }

  lemma StudentRowsDistinct(db: Store, s: Student)
    requires JoinKeysUnique(db)
    ensures Distinct(WithStudent(db)(s))
  {
    assert Distinct(db.registrations);
    FilterDistinct(db.registrations, ForStudent(s.studentId));
    var rs := RegistrationsOfStudent(db.registrations, s.studentId);
    forall r | r in rs ensures Distinct(WithRegistration(db, s)(r)) {
      RegistrationRowsDistinct(db, s, r);
    }
    forall r, y | r in rs && y in WithRegistration(db, s)(r) ensures RowRegistration()(y) == r {
      RowsWithRegistration(db, s, r, y);
    }
    FlatMapDistinct(rs, WithRegistration(db, s), RowRegistration());
  }

  /** With the primary keys of the four tables, no combination is joined twice. */
  lemma JoinedDistinct(db: Store)
    requires JoinKeysUnique(db)
    ensures Distinct(Joined(db))
  {
    assert Distinct(db.students);
    forall s | s in db.students ensures Distinct(WithStudent(db)(s)) {
      StudentRowsDistinct(db, s);
    }
    forall s, y | s in db.students && y in WithStudent(db)(s) ensures RowStudent()(y) == s {
      RowsWithStudent(db, s, y);
    }
    FlatMapDistinct(db.students, WithStudent(db), RowStudent());
  }

  /** A projected row occurs once per row that projects to it. */
  lemma {:induction false} ProjectCount(rows: seq<JoinRow>, p: ParticipationRow)
    ensures multiset(ProjectAll(rows))[p] == |Filter(rows, ProjectsTo(p))|
  {
    if rows != [] {
      ProjectCount(rows[1..], p);
      assert ProjectAll(rows) == [Project(rows[0])] + ProjectAll(rows[1..]);
    }
  }

  lemma SelectedIsSource(db: Store, name: string, p: ParticipationRow, x: JoinRow)
    requires x in Joined(db) && Attended(x, name) && Project(x) == p
    ensures x in Sources(db, name, p)
  {
    JoinedSound(db, x);
    var s, r, e, a := x.student, x.reg, x.event, x.att;
    assert x == JoinRow(s, r, e, a);
  }

  lemma SourceIsSelected(db: Store, name: string, p: ParticipationRow, x: JoinRow)
    requires x in Sources(db, name, p)
    ensures x in Joined(db) && Attended(x, name) && Project(x) == p
  {
    var s, r, e, a :|
      && s in db.students && r in db.registrations && e in db.events && a in db.attendance
      && Linked(JoinRow(s, r, e, a)) && Attended(JoinRow(s, r, e, a), name)
      && Project(JoinRow(s, r, e, a)) == p && x == JoinRow(s, r, e, a);
    JoinedComplete(db, x);
  }

  /** The joined rows that pass the WHERE clause and give `p` are exactly `Sources`. */
  lemma SourcesAreSelected(db: Store, name: string, p: ParticipationRow)
    ensures (set x | x in Filter(Filter(Joined(db), Where(name)), ProjectsTo(p))) == Sources(db, name, p)
  {
    var w := Filter(Joined(db), Where(name));
    var f := Filter(w, ProjectsTo(p));
    forall x ensures x in f <==> x in Sources(db, name, p) {
      if x in f {
        assert x in w;
        SelectedIsSource(db, name, p, x);
      }
      if x in Sources(db, name, p) {
        SourceIsSelected(db, name, p, x);
        assert x in w;
      }
    }
  }

  /**
   * How often a row is reported: once for each distinct combination of a student of
   * that name, its registration, the scheduled event and a present attendance row
   * that gives the row. Two such students, or two present attendance rows on one
   * registration, give the same row twice.
   */
  lemma ParticipationMultiplicity(db: Store, name: string, p: ParticipationRow)
    requires JoinKeysUnique(db)
    ensures multiset(StudentParticipation(db, name))[p] == |Sources(db, name, p)|
  {
    var f := Filter(Filter(Joined(db), Where(name)), ProjectsTo(p));
    ProjectCount(Filter(Joined(db), Where(name)), p);
    JoinedDistinct(db);
    FilterDistinct(Joined(db), Where(name));
    FilterDistinct(Filter(Joined(db), Where(name)), ProjectsTo(p));
    DistinctCard(f);
    SourcesAreSelected(db, name, p);
  }
}
