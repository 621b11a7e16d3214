/**
 * The campus-events store: the five tables that `setup_database` creates
 * (prototype.py:19-72), their rows, and the constraints the DDL declares, stated as
 * the predicate `WellFormed`. Identifiers are opaque text keys; DATETIME columns are
 * kept as opaque text, since no report compares or computes with them.
 */
module Schema {
  import opened Relational

  datatype Option<T> = None | Some(value: T)

  type Id = string
  type Timestamp = string

  /** The only `event_status` the reports keep. */
  const Scheduled: string := "Scheduled"

  datatype College = College(collegeId: Id, collegeName: string)

  datatype Student = Student(studentId: Id, studentName: string, collegeId: Option<Id>)

  datatype Event = Event(
    eventId: Id,
    eventName: string,
    eventType: Option<string>,
    eventDate: Timestamp,
    eventStatus: string,
    collegeId: Option<Id>)

  datatype Registration = Registration(
    regId: Id,
    studentId: Option<Id>,
    eventId: Option<Id>,
    regDate: Timestamp)

  datatype Attendance = Attendance(
    attendanceId: Id,
    regId: Option<Id>,
    isPresent: bool,
    feedbackScore: Option<int>)

  /** The database: one sequence of rows per table, in insertion order. */
  datatype Store = Store(
    colleges: seq<College>,
    students: seq<Student>,
    events: seq<Event>,
    registrations: seq<Registration>,
    attendance: seq<Attendance>)

  /** The state `setup_database` leaves: every table freshly created and empty. */
  const EmptyStore: Store := Store([], [], [], [], [])

  // ---------------------------------------------------------------------------
  // PRIMARY KEY: no two rows of a table share their key.

  predicate CollegeKeysUnique(cs: seq<College>) {
    forall i, j :: 0 <= i < j < |cs| ==> cs[i].collegeId != cs[j].collegeId
  }

  predicate StudentKeysUnique(ss: seq<Student>) {
    forall i, j :: 0 <= i < j < |ss| ==> ss[i].studentId != ss[j].studentId
  }

  predicate EventKeysUnique(es: seq<Event>) {
    forall i, j :: 0 <= i < j < |es| ==> es[i].eventId != es[j].eventId
  }

  predicate RegistrationKeysUnique(rs: seq<Registration>) {
    forall i, j :: 0 <= i < j < |rs| ==> rs[i].regId != rs[j].regId
  }

  predicate AttendanceKeysUnique(as_: seq<Attendance>) {
    forall i, j :: 0 <= i < j < |as_| ==> as_[i].attendanceId != as_[j].attendanceId
  }

  // ---------------------------------------------------------------------------
  // UNIQUE (student_id, event_id): as in SQL, a NULL in either column never clashes.

  predicate SamePair(a: Registration, b: Registration) {
    a.studentId.Some? && a.eventId.Some? && a.studentId == b.studentId && a.eventId == b.eventId
  }

  predicate RegistrationPairsUnique(rs: seq<Registration>) {
    forall i, j :: 0 <= i < j < |rs| ==> !SamePair(rs[i], rs[j])
  }

  // ---------------------------------------------------------------------------
  // FOREIGN KEY: a non-NULL reference names an existing row of the parent table.

  function CollegeIds(cs: seq<College>): set<Id> { set c | c in cs :: c.collegeId }
  function StudentIds(ss: seq<Student>): set<Id> { set s | s in ss :: s.studentId }
  function EventIds(es: seq<Event>): set<Id> { set e | e in es :: e.eventId }
  function RegistrationIds(rs: seq<Registration>): set<Id> { set r | r in rs :: r.regId }

  predicate Resolves(ref: Option<Id>, keys: set<Id>) {
    ref.Some? ==> ref.value in keys
  }

  predicate StudentRefsResolve(db: Store) {
    forall s :: s in db.students ==> Resolves(s.collegeId, CollegeIds(db.colleges))
  }

  predicate EventRefsResolve(db: Store) {
    forall e :: e in db.events ==> Resolves(e.collegeId, CollegeIds(db.colleges))
  }

  predicate RegistrationRefsResolve(db: Store) {
    forall r :: r in db.registrations ==>
      Resolves(r.studentId, StudentIds(db.students)) && Resolves(r.eventId, EventIds(db.events))
  }

  predicate AttendanceRefsResolve(db: Store) {
    forall a :: a in db.attendance ==> Resolves(a.regId, RegistrationIds(db.registrations))
  }

  /**
   * Every constraint the DDL of `setup_database` declares. A well-formed store has
   * the unique keys the reports group and join by.
   */
  predicate WellFormed(db: Store): (ok: bool)
    ensures ok ==> ReportReady(db)
  {
    && CollegeKeysUnique(db.colleges)
    && StudentKeysUnique(db.students)
    && EventKeysUnique(db.events)
    && RegistrationKeysUnique(db.registrations)
    && AttendanceKeysUnique(db.attendance)
    && RegistrationPairsUnique(db.registrations)
    && StudentRefsResolve(db)
    && EventRefsResolve(db)
    && RegistrationRefsResolve(db)
    && AttendanceRefsResolve(db)
  }

  /** The keys the reports group by and join through are unique. */
  predicate ReportReady(db: Store) {
    && CollegeKeysUnique(db.colleges)
    && StudentKeysUnique(db.students)
    && EventKeysUnique(db.events)
  }

  lemma EmptyStoreWellFormed()
    ensures WellFormed(EmptyStore)
  {}

  /**
   * Under the schema, registrations of one student for one event are unique, and
   * every row a registration or an attendance row points to exists.
   */
  lemma WellFormedReferences(db: Store, r: Registration, a: Attendance)
    requires WellFormed(db)
    ensures r in db.registrations && r.studentId.Some? ==>
      exists s :: s in db.students && Some(s.studentId) == r.studentId
    ensures r in db.registrations && r.eventId.Some? ==>
      exists e :: e in db.events && Some(e.eventId) == r.eventId
    ensures a in db.attendance && a.regId.Some? ==>
      exists x :: x in db.registrations && Some(x.regId) == a.regId
    ensures forall i, j :: 0 <= i < |db.registrations| && 0 <= j < |db.registrations| && i != j ==>
      !SamePair(db.registrations[i], db.registrations[j])
  {
    forall i, j | 0 <= i < |db.registrations| && 0 <= j < |db.registrations| && i != j
      ensures !SamePair(db.registrations[i], db.registrations[j])
    {
      if j < i {
        assert !SamePair(db.registrations[j], db.registrations[i]);
      }
    }
  }

  // ---------------------------------------------------------------------------
  // The rows an equi-join condition matches, shared by the report queries.

  function ForEvent(id: Id): Registration -> bool {
    (r: Registration) => r.eventId == Some(id)
  }

  /** Registrations r with r.event_id = id. */
  function RegistrationsOfEvent(regs: seq<Registration>, id: Id): seq<Registration> {
    Filter(regs, ForEvent(id))
  }

  function ForStudent(id: Id): Registration -> bool {
    (r: Registration) => r.studentId == Some(id)
  }

  /** Registrations r with r.student_id = id. */
  function RegistrationsOfStudent(regs: seq<Registration>, id: Id): seq<Registration> {
    Filter(regs, ForStudent(id))
  }

  function ForRegistration(id: Id): Attendance -> bool {
    (a: Attendance) => a.regId == Some(id)
  }

  /** AttendanceFeedback rows af with af.reg_id = id. */
  function AttendanceOf(atts: seq<Attendance>, id: Id): seq<Attendance> {
    Filter(atts, ForRegistration(id))
  }

  function KeyedBy(ref: Option<Id>): Event -> bool {
    (e: Event) => ref == Some(e.eventId)
  }

  /** Events e with e.event_id = ref; a NULL reference matches nothing. */
  function EventsWithKey(es: seq<Event>, ref: Option<Id>): seq<Event> {
    Filter(es, KeyedBy(ref))
  }

  function CollegeKeyedBy(ref: Option<Id>): College -> bool {
    (c: College) => ref == Some(c.collegeId)
  }

  /** Colleges c with c.college_id = ref; a NULL reference matches nothing. */
  function CollegesWithKey(cs: seq<College>, ref: Option<Id>): seq<College> {
    Filter(cs, CollegeKeyedBy(ref))
  }

  function IsPresent(): Attendance -> bool {
    (a: Attendance) => a.isPresent
  }

  function PresentOf(atts: seq<Attendance>): Registration -> seq<Attendance> {
    (r: Registration) => Filter(AttendanceOf(atts, r.regId), IsPresent())
  }
}
