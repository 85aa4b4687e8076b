/** `exporter_donnees` and `exporter_vers_csv`: the layout of the text and
    CSV exports. How one record is printed (`str()` of a dictionary) and how
    a CSV field is quoted are left abstract: a record line carries the record
    itself, a CSV row its list of fields. Each layout comes with a reader
    that recovers the exported collections from it. */
module Export {
  import opened Sequences
  import opened Records

  /** One record, tagged with its collection. */
  datatype Entry =
    | StudentEntry(student: Student)
    | TeacherEntry(teacher: Teacher)
    | CourseEntry(course: Course)
    | GradeEntry(grade: Grade)
    | AbsenceEntry(absence: Absence)

  /** One line of the text export: a section heading, the empty line that
      precedes every heading but the first, or one record. */
  datatype Line = Heading(title: string) | Blank | Item(entry: Entry)

  const StudentsHeading: string := "Étudiants:"
  const TeachersHeading: string := "Enseignants:"
  const CoursesHeading: string := "Cours:"
  const GradesHeading: string := "Notes:"
  const AbsencesHeading: string := "Absences:"

  /** The entry of each collection's record. */
  function StudentTag(st: Student): Entry { StudentEntry(st) }
  function TeacherTag(t: Teacher): Entry { TeacherEntry(t) }
  function CourseTag(c: Course): Entry { CourseEntry(c) }
  function GradeTag(g: Grade): Entry { GradeEntry(g) }
  function AbsenceTag(a: Absence): Entry { AbsenceEntry(a) }

  /** One record line per record, in storage order. */
  function ItemLines<T>(records: seq<T>, tag: T -> Entry): (r: seq<Line>)
    ensures |r| == |records|
  {
    seq(|records|, i requires 0 <= i < |records| => Item(tag(records[i])))
  }

  /** The text export: the five sections in the fixed order students,
      teachers, courses, grades, absences, each a heading followed by one
      line per record in storage order. */
  function TextExport(s: Snapshot): (r: seq<Line>)
    ensures |r| == 9 + |s.students| + |s.teachers| + |s.courses| + |s.grades| + |s.absences|
    ensures r[0] == Heading(StudentsHeading)
  {
    [Heading(StudentsHeading)] + ItemLines(s.students, StudentTag)
    + ([Blank, Heading(TeachersHeading)] + ItemLines(s.teachers, TeacherTag)
    + ([Blank, Heading(CoursesHeading)] + ItemLines(s.courses, CourseTag)
    + ([Blank, Heading(GradesHeading)] + ItemLines(s.grades, GradeTag)
    + ([Blank, Heading(AbsencesHeading)] + ItemLines(s.absences, AbsenceTag)))))
  }

  /** Splits a list of lines after its leading run of record lines. */
  function SplitItems(lines: seq<Line>): (seq<Line>, seq<Line>)
  {
    if lines != [] && lines[0].Item? then
      var (items, rest) := SplitItems(lines[1..]);
      ([lines[0]] + items, rest)
    else ([], lines)
  }

  /** A run of record lines is split off whole, up to the next heading or
      blank line. */
  lemma {:induction false} SplitItemsOfRun(items: seq<Line>, rest: seq<Line>)
    requires forall i :: 0 <= i < |items| ==> items[i].Item?
    requires rest == [] || !rest[0].Item?
    ensures SplitItems(items + rest) == (items, rest)
  {
    if items == [] {
      assert items + rest == rest;
    } else {
      assert (items + rest)[0] == items[0];
      assert (items + rest)[1..] == items[1..] + rest;
      SplitItemsOfRun(items[1..], rest);
      assert [items[0]] + items[1..] == items;
    }
  }

  /** The record of one collection that an entry holds, if it is of that
      collection. */
  function AsStudent(e: Entry): Option<Student>
  {
    if e.StudentEntry? then Some(e.student) else None
  }

  function AsTeacher(e: Entry): Option<Teacher>
  {
    if e.TeacherEntry? then Some(e.teacher) else None
  }

  function AsCourse(e: Entry): Option<Course>
  {
    if e.CourseEntry? then Some(e.course) else None
  }

  function AsGrade(e: Entry): Option<Grade>
  {
    if e.GradeEntry? then Some(e.grade) else None
  }

  function AsAbsence(e: Entry): Option<Absence>
  {
    if e.AbsenceEntry? then Some(e.absence) else None
  }

  /** The records of record lines that all belong to one collection. */
  function RecordsIn<T>(lines: seq<Line>, pick: Entry -> Option<T>): Option<seq<T>>
  {
    if lines == [] then Some([])
    else if !lines[0].Item? || pick(lines[0].entry).None? then None
    else match RecordsIn(lines[1..], pick)
      case None => None
      case Some(rest) => Some([pick(lines[0].entry).value] + rest)
  }

  /** Lines that each hold the matching record read back as those records. */
  lemma {:induction false} RecordsInLines<T>(lines: seq<Line>, pick: Entry -> Option<T>, records: seq<T>)
    requires |lines| == |records|
    requires forall i :: 0 <= i < |lines| ==> lines[i].Item? && pick(lines[i].entry) == Some(records[i])
    ensures RecordsIn(lines, pick) == Some(records)
  {
    if lines != [] {
      RecordsInLines(lines[1..], pick, records[1..]);
      assert records == [records[0]] + records[1..];
    }
  }

  /** The record lines of one collection read back as its records. */
  lemma ReadItemLines<T>(records: seq<T>, tag: T -> Entry, pick: Entry -> Option<T>)
    requires forall x :: pick(tag(x)) == Some(x)
    ensures RecordsIn(ItemLines(records, tag), pick) == Some(records)
  {
    RecordsInLines(ItemLines(records, tag), pick, records);
  }

  /** Reads a text export back: the five headings must come in their fixed
      order, separated by blank lines, and each section may hold only records
      of its own collection. */
  function ReadTextExport(lines: seq<Line>): Option<Snapshot>
  {
    if lines == [] || lines[0] != Heading(StudentsHeading) then None
    else
      var (l1, r1) := SplitItems(lines[1..]);
      if |r1| < 2 || r1[..2] != [Blank, Heading(TeachersHeading)] then None
      else
        var (l2, r2) := SplitItems(r1[2..]);
        if |r2| < 2 || r2[..2] != [Blank, Heading(CoursesHeading)] then None
        else
          var (l3, r3) := SplitItems(r2[2..]);
          if |r3| < 2 || r3[..2] != [Blank, Heading(GradesHeading)] then None
          else
            var (l4, r4) := SplitItems(r3[2..]);
            if |r4| < 2 || r4[..2] != [Blank, Heading(AbsencesHeading)] then None
            else
              var (l5, r5) := SplitItems(r4[2..]);
              if r5 != [] then None
              else
                match (RecordsIn(l1, AsStudent), RecordsIn(l2, AsTeacher), RecordsIn(l3, AsCourse),
                       RecordsIn(l4, AsGrade), RecordsIn(l5, AsAbsence))
                case (Some(a), Some(b), Some(c), Some(d), Some(e)) => Some(Snapshot(a, b, c, d, e))
                case _ => None
  }

  /** The text export holds exactly the five collections, in order, each
      under its own heading: reading it back gives the store's contents. */
  lemma TextExportRoundTrip(s: Snapshot)
    ensures ReadTextExport(TextExport(s)) == Some(s)
  {
    var l1, l2, l3, l4, l5 := ItemLines(s.students, StudentTag), ItemLines(s.teachers, TeacherTag),
      ItemLines(s.courses, CourseTag), ItemLines(s.grades, GradeTag), ItemLines(s.absences, AbsenceTag);
    var t5 := [Blank, Heading(AbsencesHeading)] + l5;
    var t4 := [Blank, Heading(GradesHeading)] + l4 + t5;
    var t3 := [Blank, Heading(CoursesHeading)] + l3 + t4;
    var t2 := [Blank, Heading(TeachersHeading)] + l2 + t3;
    var lines := TextExport(s);
    assert lines == [Heading(StudentsHeading)] + l1 + t2;
    assert lines[1..] == l1 + t2;
    SplitItemsOfRun(l1, t2);
    assert t2[..2] == [Blank, Heading(TeachersHeading)] && t2[2..] == l2 + t3;
    SplitItemsOfRun(l2, t3);
    assert t3[..2] == [Blank, Heading(CoursesHeading)] && t3[2..] == l3 + t4;
    SplitItemsOfRun(l3, t4);
    assert t4[..2] == [Blank, Heading(GradesHeading)] && t4[2..] == l4 + t5;
    SplitItemsOfRun(l4, t5);
    assert t5[..2] == [Blank, Heading(AbsencesHeading)] && t5[2..] == l5 + [];
    SplitItemsOfRun(l5, []);
    ReadItemLines(s.students, StudentTag, AsStudent);
    ReadItemLines(s.teachers, TeacherTag, AsTeacher);
    ReadItemLines(s.courses, CourseTag, AsCourse);
    ReadItemLines(s.grades, GradeTag, AsGrade);
    ReadItemLines(s.absences, AbsenceTag, AsAbsence);
  }

  /** The heading row of the CSV export. */
  const CsvHeader: seq<string> := ["Nom", "Date d'ajout"]

  /** `exporter_vers_csv`: the header row, then one row `[nom, date_ajout]`
      per student in storage order. */
  method ExportCsv(students: seq<Student>) returns (rows: seq<seq<string>>)
    ensures |rows| == |students| + 1 && rows[0] == CsvHeader
    ensures forall i :: 0 <= i < |students| ==>
              rows[i + 1] == [students[i].name, students[i].dateAdded]
    ensures ReadCsv(rows) == Some(students)
  {
    rows := [CsvHeader];
    for i := 0 to |students|
      invariant |rows| == i + 1 && rows[0] == CsvHeader
      invariant forall j :: 0 <= j < i ==> rows[j + 1] == [students[j].name, students[j].dateAdded]
    {
      rows := rows + [[students[i].name, students[i].dateAdded]];
    }
    ReadCsvOfLayout(rows, students);
  }

  /** Reads the student rows of a CSV file: each must have two fields. */
  function StudentsOfRows(rows: seq<seq<string>>): Option<seq<Student>>
  {
    if rows == [] then Some([])
    else if |rows[0]| != 2 then None
    else match StudentsOfRows(rows[1..])
      case None => None
      case Some(rest) => Some([Student(rows[0][0], rows[0][1])] + rest)
  }

  /** Reads a CSV export back: the header row, then the students. */
  function ReadCsv(rows: seq<seq<string>>): Option<seq<Student>>
  {
    if rows == [] || rows[0] != CsvHeader then None else StudentsOfRows(rows[1..])
  }

  /** Rows in the export's layout read back as the exported students. */
  lemma {:induction false} ReadCsvOfLayout(rows: seq<seq<string>>, students: seq<Student>)
    requires |rows| == |students| + 1 && rows[0] == CsvHeader
    requires forall i :: 0 <= i < |students| ==>
               rows[i + 1] == [students[i].name, students[i].dateAdded]
    ensures ReadCsv(rows) == Some(students)
  {
    StudentsOfRowsLayout(rows[1..], students);
  }

  lemma {:induction false} StudentsOfRowsLayout(rows: seq<seq<string>>, students: seq<Student>)
    requires |rows| == |students|
    requires forall i :: 0 <= i < |students| ==>
               rows[i] == [students[i].name, students[i].dateAdded]
    ensures StudentsOfRows(rows) == Some(students)
  {
    if rows != [] {
      StudentsOfRowsLayout(rows[1..], students[1..]);
      assert students == [Student(rows[0][0], rows[0][1])] + students[1..];
    }
  }
}
