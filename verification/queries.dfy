/** The searches: list comprehensions over one collection, matching a name
    without regard to case, or matching the day a student was added. */
module Queries {
  import opened Sequences
  import opened Text
  import opened Calendar
  import opened Records

  /** The test of the student search: the name equals `name` ignoring
      case. */
  function NameIs(name: string): Student -> bool
  {
    (st: Student) => EqualsIgnoreCase(st.name, name)
  }

  /** `rechercher_etudiant_par_nom`: the students whose name equals `name`
      ignoring case, in storage order. */
  function SearchStudentsByName(students: seq<Student>, name: string): (r: seq<Student>)
    ensures forall st :: st in r ==> st in students && EqualsIgnoreCase(st.name, name)
    ensures forall st :: st in students && EqualsIgnoreCase(st.name, name) ==>
              multiset(r)[st] == multiset(students)[st]
    ensures IsSubseq(r, students)
  {
    FilterSpec(students, NameIs(name));
    Filter(students, NameIs(name))
  }

  /** `rechercher_enseignant_par_nom`. */
  function SearchTeachersByName(teachers: seq<Teacher>, name: string): (r: seq<Teacher>)
    ensures forall t :: t in r ==> t in teachers && EqualsIgnoreCase(t.name, name)
    ensures forall t :: t in teachers && EqualsIgnoreCase(t.name, name) ==>
              multiset(r)[t] == multiset(teachers)[t]
    ensures IsSubseq(r, teachers)
  {
    var p := (t: Teacher) => EqualsIgnoreCase(t.name, name);
    FilterSpec(teachers, p);
    Filter(teachers, p)
  }

  /** `rechercher_cours_par_nom`. */
  function SearchCoursesByName(courses: seq<Course>, name: string): (r: seq<Course>)
    ensures forall c :: c in r ==> c in courses && EqualsIgnoreCase(c.name, name)
    ensures forall c :: c in courses && EqualsIgnoreCase(c.name, name) ==>
              multiset(r)[c] == multiset(courses)[c]
    ensures IsSubseq(r, courses)
  {
    var p := (c: Course) => EqualsIgnoreCase(c.name, name);
    FilterSpec(courses, p);
    Filter(courses, p)
  }

  /** `rechercher_note_par_etudiant`: the grades whose student field equals
      `student` ignoring case. */
  function SearchGradesByStudent(grades: seq<Grade>, student: string): (r: seq<Grade>)
    ensures forall g :: g in r ==> g in grades && EqualsIgnoreCase(g.student, student)
    ensures forall g :: g in grades && EqualsIgnoreCase(g.student, student) ==>
              multiset(r)[g] == multiset(grades)[g]
    ensures IsSubseq(r, grades)
  {
    var p := (g: Grade) => EqualsIgnoreCase(g.student, student);
    FilterSpec(grades, p);
    Filter(grades, p)
  }

  /** `any(etudiant["nom"].lower() == nom.lower() for etudiant in etudiants)`,
      the duplicate test of the add, scanning from the front: true exactly
      when some stored name equals `name` ignoring case. */
  function HasStudentNamed(students: seq<Student>, name: string): (r: bool)
    ensures r <==> exists st :: st in students && EqualsIgnoreCase(st.name, name)
  {
    if students == [] then false
    else
      assert forall st :: st in students <==> st == students[0] || st in students[1..];
      EqualsIgnoreCase(students[0].name, name) || HasStudentNamed(students[1..], name)
  }

  /** No two students' names are equal ignoring case: what the duplicate
      check of the add keeps. */
  ghost predicate NamesUniqueIgnoringCase(students: seq<Student>)
  {
    forall i, j :: 0 <= i < j < |students| ==> !EqualsIgnoreCase(students[i].name, students[j].name)
  }

  /** Appending a student whose name is not there yet, ignoring case, keeps
      the names unique. */
  lemma AddKeepsNamesUnique(students: seq<Student>, st: Student)
    requires NamesUniqueIgnoringCase(students)
    requires !HasStudentNamed(students, st.name)
    ensures NamesUniqueIgnoringCase(students + [st])
  {
  }

  /** A rename checks nothing, so it can make two names equal ignoring case:
      renaming "Bob" to "alice" next to "Alice". */
  lemma RenameCanBreakUniqueness()
    ensures exists students: seq<Student>, i: nat, newName: string ::
              i < |students| && NamesUniqueIgnoringCase(students)
              && !NamesUniqueIgnoringCase(students[i := students[i].(name := newName)])
  {
    var students := [Student("Alice", "2024-01-01 10:00:00"), Student("Bob", "2024-01-02 11:00:00")];
    assert LowerString("Alice") == "alice";
    assert LowerString("Bob") == "bob";
    assert LowerString("alice") == "alice";
    var renamed := students[1 := students[1].(name := "alice")];
    assert !EqualsIgnoreCase(students[0].name, students[1].name);
    assert EqualsIgnoreCase(renamed[0].name, renamed[1].name);
  }

  /** The duplicate check of the add and the name search agree: the search
      finds nobody exactly when the add would accept the name. */
  lemma SearchEmptyIffNoStudentNamed(students: seq<Student>, name: string)
    ensures SearchStudentsByName(students, name) == [] <==> !HasStudentNamed(students, name)
  {
  }

  /** Edit and delete match names exactly while the search ignores case: a
      record that edit or delete would act on is always among the search
      results. */
  lemma ExactMatchIsSearchResult(students: seq<Student>, name: string, i: nat)
    requires FirstIndex(students, StudentName, name) == Some(i)
    ensures students[i] in SearchStudentsByName(students, name)
  {
  }

  datatype SearchError = InvalidDateFormat

  /** `strptime(date_ajout, ...).date() == date_recherche.date()`: the
      stored timestamp parses, and its date part is `day`. For a readable
      timestamp that is the same as its first ten characters being the text
      of `day`. */
  predicate AddedOn(st: Student, day: Date)
    ensures AddedOn(st, day) ==>
              ValidDate(day) && |st.dateAdded| == 19 && st.dateAdded[..10] == FormatDate(day)
    ensures ValidDate(day) && ParseTimestamp(st.dateAdded).Some? && st.dateAdded[..10] == FormatDate(day)
            ==> AddedOn(st, day)
  {
    match ParseTimestamp(st.dateAdded)
    case Some(t) =>
      if ValidDate(day) then
        FormatDateInjective(t.date, day);
        t.date == day
      else false
    case None => false
  }

  /** The test of the date search. */
  function AddedOnDay(day: Date): Student -> bool
  {
    (st: Student) => AddedOn(st, day)
  }

  /** Every stored timestamp can be parsed. */
  predicate AllTimestampsReadable(students: seq<Student>)
  {
    forall st :: st in students ==> ParseTimestamp(st.dateAdded).Some?
  }

  /** `rechercher_etudiant_par_date`: an unreadable query date, or any
      unreadable stored timestamp, gives the invalid-format error and no
      results; otherwise the students added on the queried day, in storage
      order. */
  function SearchStudentsByDate(students: seq<Student>, query: string): (r: Result<seq<Student>, SearchError>)
    ensures r.Err? <==> ParseDate(query).None? || !AllTimestampsReadable(students)
    ensures r.Ok? ==>
              && (forall st :: st in r.value ==> st in students && AddedOn(st, ParseDate(query).value))
              && (forall st :: st in students && AddedOn(st, ParseDate(query).value) ==>
                    multiset(r.value)[st] == multiset(students)[st])
              && IsSubseq(r.value, students)
  {
    match ParseDate(query)
    case None => Err(InvalidDateFormat)
    case Some(day) =>
      if AllTimestampsReadable(students) then
        FilterSpec(students, AddedOnDay(day));
        Ok(Filter(students, AddedOnDay(day)))
      else Err(InvalidDateFormat)
  }

  /** After a student is appended, the name search lists what it listed
      before, followed by the new student when the name matches. */
  lemma SearchByNameAfterAdd(students: seq<Student>, st: Student, name: string)
    ensures SearchStudentsByName(students + [st], name) ==
            SearchStudentsByName(students, name) + (if EqualsIgnoreCase(st.name, name) then [st] else [])
  {
    FilterAppend(students, st, NameIs(name));
  }

  /** A student added at moment `now` is found, last, by the date search on
      the day of `now`, provided the stored timestamps were all readable. */
  lemma SearchByDateAfterAdd(students: seq<Student>, name: string, now: DateTime)
    requires ValidDateTime(now) && AllTimestampsReadable(students)
    ensures var st := Student(name, FormatTimestamp(now));
            var before := SearchStudentsByDate(students, FormatDate(now.date));
            && before.Ok?
            && SearchStudentsByDate(students + [st], FormatDate(now.date)) == Ok(before.value + [st])
  {
    var st := Student(name, FormatTimestamp(now));
    ParseFormatTimestamp(now);
    ParseFormatDate(now.date);
    assert AllTimestampsReadable(students + [st]);
    FilterAppend(students, st, AddedOnDay(now.date));
  }
}
