/**
 * The rows `populate_sample_data` inserts (prototype.py:78-142), with fixed keys in
 * place of the random UUIDs and fixed text in place of `datetime.now()`: they
 * satisfy every constraint the schema declares.
 */
module SampleData {
  import opened Schema

  const Colleges: seq<College> := [
    College("col_01", "Global Tech Institute"),
    College("col_02", "National Arts University")]

  const Students: seq<Student> := [
    Student("s1", "Alice Johnson", Some("col_01")),
    Student("s2", "Bob Williams", Some("col_01")),
    Student("s3", "Charlie Brown", Some("col_01")),
    Student("s4", "Diana Miller", Some("col_02")),
    Student("s5", "Ethan Davis", Some("col_02"))]

  const Hackathon: Event := Event("e1", "AI Hackathon 2025", Some("Workshop"), "2025-10-22 00:00:00", Scheduled, Some("col_01"))
  const TechFest: Event := Event("e2", "Annual Tech Fest", Some("Fest"), "2025-11-15 00:00:00", Scheduled, Some("col_01"))
  const ArtExhibition: Event := Event("e3", "Modern Art Exhibition", Some("Seminar"), "2025-10-05 00:00:00", Scheduled, Some("col_02"))
  const CodingContest: Event := Event("e4", "Cancelled Coding Contest", Some("Workshop"), "2025-09-01 00:00:00", "Cancelled", Some("col_01"))

  const Registrations: seq<Registration> := [
    Registration("r1", Some("s1"), Some("e1"), "now"),
    Registration("r2", Some("s2"), Some("e1"), "now"),
    Registration("r3", Some("s1"), Some("e2"), "now"),
    Registration("r4", Some("s3"), Some("e2"), "now"),
    Registration("r5", Some("s4"), Some("e3"), "now")]

  const Attendances: seq<Attendance> := [
    Attendance("a1", Some("r1"), true, Some(5)),
    Attendance("a2", Some("r2"), true, Some(4)),
    Attendance("a3", Some("r3"), true, Some(5)),
    Attendance("a4", Some("r4"), false, None),
    Attendance("a5", Some("r5"), true, Some(3))]

  const Sample: Store := Store(Colleges, Students, [Hackathon, TechFest, ArtExhibition, CodingContest], Registrations, Attendances)

  lemma SampleCollegeAndStudentKeys()
    ensures CollegeKeysUnique(Sample.colleges) && StudentKeysUnique(Sample.students)
  {}

  lemma SampleEventKeys()
    ensures EventKeysUnique(Sample.events)
  {}

  lemma SampleRegistrationKeys()
    ensures RegistrationKeysUnique(Sample.registrations)
  {}

  lemma SampleAttendanceKeys()
    ensures AttendanceKeysUnique(Sample.attendance)
  {}

  lemma SamplePairsUnique()
    ensures RegistrationPairsUnique(Sample.registrations)
  {}

  lemma SampleStudentRefs()
    ensures StudentRefsResolve(Sample)
  {
    assert CollegeIds(Sample.colleges) == {"col_01", "col_02"};
  }

  lemma SampleEventRefs()
    ensures EventRefsResolve(Sample)
  {
    assert CollegeIds(Sample.colleges) == {"col_01", "col_02"};
  }

  lemma SampleRegistrationStudents()
    ensures forall r :: r in Sample.registrations ==> Resolves(r.studentId, StudentIds(Sample.students))
  {
    var ss := StudentIds(Sample.students);
    assert "s1" in ss && "s2" in ss && "s3" in ss && "s4" in ss by {
      assert Students[0] in Sample.students && Students[1] in Sample.students;
      assert Students[2] in Sample.students && Students[3] in Sample.students;
    }
  }

  lemma SampleRegistrationEvents()
    ensures forall r :: r in Sample.registrations ==> Resolves(r.eventId, EventIds(Sample.events))
  {
    var es := EventIds(Sample.events);
    assert "e1" in es && "e2" in es && "e3" in es by {
      assert Hackathon in Sample.events && TechFest in Sample.events && ArtExhibition in Sample.events;
    }
  }

  lemma SampleRegistrationRefs()
    ensures RegistrationRefsResolve(Sample)
  {
    SampleRegistrationStudents();
    SampleRegistrationEvents();
  }

  lemma SampleAttendanceRefs()
    ensures AttendanceRefsResolve(Sample)
  {
    assert RegistrationIds(Sample.registrations) == {"r1", "r2", "r3", "r4", "r5"};
  }

  /** The sample data satisfies every declared constraint. */
  lemma SampleWellFormed()
    ensures WellFormed(Sample)
  {
    SampleCollegeAndStudentKeys();
    SampleEventKeys();
    SampleRegistrationKeys();
    SampleAttendanceKeys();
    SamplePairsUnique();
    SampleStudentRefs();
    SampleEventRefs();
    SampleRegistrationRefs();
    SampleAttendanceRefs();
  }
}
