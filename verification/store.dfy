/** The program's in-memory state: the five module-level lists `etudiants`,
    `enseignants`, `cours`, `notes` and `absences`, and the operations that
    change them in place. Values the program asks the user for are
    parameters; the current time is a parameter of the add. */
module Store {
  import opened Sequences
  import opened Calendar
  import opened Records
  import opened Queries
  import opened Sorting
  import opened Persistence
  import opened Export

  datatype SortOutcome = Sorted | InvalidCriterion | UnreadableTimestamp

  class RecordStore {
    var students: seq<Student>
    var teachers: seq<Teacher>
    var courses: seq<Course>
    var grades: seq<Grade>
    var absences: seq<Absence>

    /** The five lists as one value. */
    function State(): Snapshot
      reads this
    {
      Snapshot(students, teachers, courses, grades, absences)
    }

    /** The lists as the program starts: all empty. */
    constructor ()
      ensures State() == Snapshot([], [], [], [], [])
    {
      students, teachers, courses, grades, absences := [], [], [], [], [];
    }

    /** `ajouter_etudiant`: refused when some student already has the name,
        ignoring case; otherwise the student is appended, stamped with the
        current time. */
    method AddStudent(name: string, now: DateTime) returns (added: bool)
      requires ValidDateTime(now)
      modifies this
      ensures added == !HasStudentNamed(old(students), name)
      ensures added ==> students == old(students) + [Student(name, FormatTimestamp(now))]
      ensures !added ==> students == old(students)
      ensures NamesUniqueIgnoringCase(old(students)) ==> NamesUniqueIgnoringCase(students)
      ensures State() == old(State()).(students := students)
    {
      if HasStudentNamed(students, name) {
        return false;
      }
      var st := Student(name, FormatTimestamp(now));
      if NamesUniqueIgnoringCase(students) {
        AddKeepsNamesUnique(students, st);
      }
      students := students + [st];
      return true;
    }

    /** `modifier_etudiant`: renames the first student whose name equals
        `name` exactly; the date added and every other record stay. */
    method EditStudent(name: string, newName: string) returns (found: bool)
      modifies this
      ensures found == FirstIndex(old(students), StudentName, name).Some?
      ensures found ==>
                var i := FirstIndex(old(students), StudentName, name).value;
                students == old(students)[i := old(students)[i].(name := newName)]
      ensures !found ==> students == old(students)
      ensures State() == old(State()).(students := students)
    {
      for i := 0 to |students|
        invariant State() == old(State())
        invariant forall j :: 0 <= j < i ==> StudentName(students[j]) != name
      {
        if students[i].name == name {
          students := students[i := students[i].(name := newName)];
          return true;
        }
      }
      return false;
    }

    /** `supprimer_etudiant`: removes the first student whose name equals
        `name` exactly (by `list.remove` of the record found). */
    method DeleteStudent(name: string) returns (found: bool)
      modifies this
      ensures found == FirstIndex(old(students), StudentName, name).Some?
      ensures found ==> students == RemoveAt(old(students), FirstIndex(old(students), StudentName, name).value)
      ensures !found ==> students == old(students)
      ensures State() == old(State()).(students := students)
    {
      for i := 0 to |students|
        invariant State() == old(State())
        invariant forall j :: 0 <= j < i ==> StudentName(students[j]) != name
      {
        if students[i].name == name {
          RemoveFoundRecord(students, StudentName, name, i);
          students := RemoveFirstEqual(students, students[i]);
          return true;
        }
      }
      return false;
    }

    /** `ajouter_enseignant`: appends unconditionally. */
    method AddTeacher(name: string)
      modifies this
      ensures State() == old(State()).(teachers := old(teachers) + [Teacher(name)])
    {
      teachers := teachers + [Teacher(name)];
    }

    /** `modifier_enseignant`. */
    method EditTeacher(name: string, newName: string) returns (found: bool)
      modifies this
      ensures found == FirstIndex(old(teachers), TeacherName, name).Some?
      ensures found ==>
                var i := FirstIndex(old(teachers), TeacherName, name).value;
                teachers == old(teachers)[i := old(teachers)[i].(name := newName)]
      ensures !found ==> teachers == old(teachers)
      ensures State() == old(State()).(teachers := teachers)
    {
      for i := 0 to |teachers|
        invariant State() == old(State())
        invariant forall j :: 0 <= j < i ==> TeacherName(teachers[j]) != name
      {
        if teachers[i].name == name {
          teachers := teachers[i := teachers[i].(name := newName)];
          return true;
        }
      }
      return false;
    }

    /** `supprimer_enseignant`. */
    method DeleteTeacher(name: string) returns (found: bool)
      modifies this
      ensures found == FirstIndex(old(teachers), TeacherName, name).Some?
      ensures found ==> teachers == RemoveAt(old(teachers), FirstIndex(old(teachers), TeacherName, name).value)
      ensures !found ==> teachers == old(teachers)
      ensures State() == old(State()).(teachers := teachers)
    {
      for i := 0 to |teachers|
        invariant State() == old(State())
        invariant forall j :: 0 <= j < i ==> TeacherName(teachers[j]) != name
      {
        if teachers[i].name == name {
          RemoveFoundRecord(teachers, TeacherName, name, i);
          teachers := RemoveFirstEqual(teachers, teachers[i]);
          return true;
        }
      }
      return false;
    }

    /** `ajouter_cours`: appends unconditionally. */
    method AddCourse(name: string)
      modifies this
      ensures State() == old(State()).(courses := old(courses) + [Course(name)])
    {
      courses := courses + [Course(name)];
    }

    /** `modifier_cours`. */
    method EditCourse(name: string, newName: string) returns (found: bool)
      modifies this
      ensures found == FirstIndex(old(courses), CourseName, name).Some?
      ensures found ==>
                var i := FirstIndex(old(courses), CourseName, name).value;
                courses == old(courses)[i := old(courses)[i].(name := newName)]
      ensures !found ==> courses == old(courses)
      ensures State() == old(State()).(courses := courses)
    {
      for i := 0 to |courses|
        invariant State() == old(State())
        invariant forall j :: 0 <= j < i ==> CourseName(courses[j]) != name
      {
        if courses[i].name == name {
          courses := courses[i := courses[i].(name := newName)];
          return true;
        }
      }
      return false;
    }

    /** `supprimer_cours`. */
    method DeleteCourse(name: string) returns (found: bool)
      modifies this
      ensures found == FirstIndex(old(courses), CourseName, name).Some?
      ensures found ==> courses == RemoveAt(old(courses), FirstIndex(old(courses), CourseName, name).value)
      ensures !found ==> courses == old(courses)
      ensures State() == old(State()).(courses := courses)
    {
      for i := 0 to |courses|
        invariant State() == old(State())
        invariant forall j :: 0 <= j < i ==> CourseName(courses[j]) != name
      {
        if courses[i].name == name {
          RemoveFoundRecord(courses, CourseName, name, i);
          courses := RemoveFirstEqual(courses, courses[i]);
          return true;
        }
      }
      return false;
    }

    /** `ajouter_note`: appends unconditionally; the student name is free
        text, not checked against the students. */
    method AddGrade(student: string, value: string)
      modifies this
      ensures State() == old(State()).(grades := old(grades) + [Grade(student, value)])
    {
      grades := grades + [Grade(student, value)];
    }

    /** `modifier_note`: replaces the value of the first grade whose student
        field equals `student` exactly. */
    method EditGrade(student: string, newValue: string) returns (found: bool)
      modifies this
      ensures found == FirstIndex(old(grades), GradeStudent, student).Some?
      ensures found ==>
                var i := FirstIndex(old(grades), GradeStudent, student).value;
                grades == old(grades)[i := old(grades)[i].(value := newValue)]
      ensures !found ==> grades == old(grades)
      ensures State() == old(State()).(grades := grades)
    {
      for i := 0 to |grades|
        invariant State() == old(State())
        invariant forall j :: 0 <= j < i ==> GradeStudent(grades[j]) != student
      {
        if grades[i].student == student {
          grades := grades[i := grades[i].(value := newValue)];
          return true;
        }
      }
      return false;
    }

    /** `supprimer_note`. */
    method DeleteGrade(student: string) returns (found: bool)
      modifies this
      ensures found == FirstIndex(old(grades), GradeStudent, student).Some?
      ensures found ==> grades == RemoveAt(old(grades), FirstIndex(old(grades), GradeStudent, student).value)
      ensures !found ==> grades == old(grades)
      ensures State() == old(State()).(grades := grades)
    {
      for i := 0 to |grades|
        invariant State() == old(State())
        invariant forall j :: 0 <= j < i ==> GradeStudent(grades[j]) != student
      {
        if grades[i].student == student {
          RemoveFoundRecord(grades, GradeStudent, student, i);
          grades := RemoveFirstEqual(grades, grades[i]);
          return true;
        }
      }
      return false;
    }

    /** `ajouter_absence`: appends unconditionally; the date is not
        checked. */
    method AddAbsence(student: string, date: string)
      modifies this
      ensures State() == old(State()).(absences := old(absences) + [Absence(student, date)])
    {
      absences := absences + [Absence(student, date)];
    }

    /** `modifier_absence`: replaces the date of the first absence whose
        student field equals `student` exactly. */
    method EditAbsence(student: string, newDate: string) returns (found: bool)
      modifies this
      ensures found == FirstIndex(old(absences), AbsenceStudent, student).Some?
      ensures found ==>
                var i := FirstIndex(old(absences), AbsenceStudent, student).value;
                absences == old(absences)[i := old(absences)[i].(date := newDate)]
      ensures !found ==> absences == old(absences)
      ensures State() == old(State()).(absences := absences)
    {
      for i := 0 to |absences|
        invariant State() == old(State())
        invariant forall j :: 0 <= j < i ==> AbsenceStudent(absences[j]) != student
      {
        if absences[i].student == student {
          absences := absences[i := absences[i].(date := newDate)];
          return true;
        }
      }
      return false;
    }

    /** `supprimer_absence`. */
    method DeleteAbsence(student: string) returns (found: bool)
      modifies this
      ensures found == FirstIndex(old(absences), AbsenceStudent, student).Some?
      ensures found ==> absences == RemoveAt(old(absences), FirstIndex(old(absences), AbsenceStudent, student).value)
      ensures !found ==> absences == old(absences)
      ensures State() == old(State()).(absences := absences)
    {
      for i := 0 to |absences|
        invariant State() == old(State())
        invariant forall j :: 0 <= j < i ==> AbsenceStudent(absences[j]) != student
      {
        if absences[i].student == student {
          RemoveFoundRecord(absences, AbsenceStudent, student, i);
          absences := RemoveFirstEqual(absences, absences[i]);
          return true;
        }
      }
      return false;
    }

    /** `trier_etudiants`: criterion "1" sorts by lower-cased name, "2" by
        the moment added; the sort is stable. Any other criterion, or a
        stored timestamp that cannot be parsed under "2", leaves the list as
        it was. */
    method SortStudents(criterion: string) returns (outcome: SortOutcome)
      modifies this
      ensures criterion == "1" ==> outcome == Sorted
      ensures criterion == "2" ==>
                outcome == (if AllTimestampsReadable(old(students)) then Sorted else UnreadableTimestamp)
      ensures criterion != "1" && criterion != "2" ==> outcome == InvalidCriterion
      ensures outcome == Sorted ==>
                var key := if criterion == "1" then NameKey else TimestampKey;
                && SortedBy(students, key)
                && SameRunsBy(students, old(students), key)
                && multiset(students) == multiset(old(students))
      ensures outcome != Sorted ==> students == old(students)
      ensures State() == old(State()).(students := students)
    {
      var key;
      if criterion == "1" {
        key := NameKey;
      } else if criterion == "2" {
        if !AllTimestampsReadable(students) {
          return UnreadableTimestamp;
        }
        key := TimestampKey;
      } else {
        return InvalidCriterion;
      }
      var sorted := SortBy(students, key);
      SameRunsIsPermutation(sorted, students, key);
      students := sorted;
      return Sorted;
    }

    /** `charger_donnees`: replaces the five lists by those of the data
        file, an empty list for every key the file lacks. */
    method Load(file: DataFile)
      modifies this
      ensures State() == LoadDocument(ReadDataFile(file))
    {
      var d := ReadDataFile(file);
      students := OrEmpty(d.students);
      teachers := OrEmpty(d.teachers);
      courses := OrEmpty(d.courses);
      grades := OrEmpty(d.grades);
      absences := OrEmpty(d.absences);
    }

    /** `sauvegarder_donnees`: the document written to the data file; loading
        it restores the five lists. */
    method Save() returns (d: Document)
      ensures d == SaveDocument(State())
      ensures LoadDocument(ReadDataFile(Present(d))) == State()
    {
      d := Document(Some(students), Some(teachers), Some(courses), Some(grades), Some(absences));
      LoadAfterSave(State());
    }

    /** `exporter_donnees`: writes the five sections, each heading followed
        by one line per record. */
    method ExportText() returns (lines: seq<Line>)
      ensures lines == TextExport(State())
      ensures ReadTextExport(lines) == Some(State())
    {
      var s := State();
      var l1 := SectionLines([Heading(StudentsHeading)], s.students, StudentTag);
      var l2 := SectionLines([Blank, Heading(TeachersHeading)], s.teachers, TeacherTag);
      var l3 := SectionLines([Blank, Heading(CoursesHeading)], s.courses, CourseTag);
      var l4 := SectionLines([Blank, Heading(GradesHeading)], s.grades, GradeTag);
      var l5 := SectionLines([Blank, Heading(AbsencesHeading)], s.absences, AbsenceTag);
      lines := l1 + (l2 + (l3 + (l4 + l5)));
      TextExportRoundTrip(State());
    }
  }

  /** One section of the text export: the lines that open it, then one
      line per record, written one at a time. */
  method SectionLines<T>(opening: seq<Line>, records: seq<T>, tag: T -> Entry) returns (lines: seq<Line>)
    ensures lines == opening + ItemLines(records, tag)
  {
    lines := opening;
    for i := 0 to |records|
      invariant lines == opening + ItemLines(records[..i], tag)
    {
      assert records[..i + 1] == records[..i] + [records[i]];
      lines := lines + [Item(tag(records[i]))];
    }
    assert records[..|records|] == records;
  }
}
