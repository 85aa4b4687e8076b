/** `charger_donnees` and `sauvegarder_donnees`: the whole store as one JSON
    object in the data file. The JSON text itself is not modelled; a
    document is the object with its five keys, each of which may be
    absent. */
module Persistence {
  import opened Sequences
  import opened Records

  /** The object stored under keys `etudiants`, `enseignants`, `cours`,
      `notes` and `absences`; `None` is a key that is not there. */
  datatype Document = Document(
    students: Option<seq<Student>>,
    teachers: Option<seq<Teacher>>,
    courses: Option<seq<Course>>,
    grades: Option<seq<Grade>>,
    absences: Option<seq<Absence>>)

  /** The data file as the program finds it. */
  datatype DataFile = Missing | Present(document: Document)

  /** `charger_donnees_fichier`: a missing file reads as the empty object
      `{}`. */
  function ReadDataFile(f: DataFile): (d: Document)
    ensures f.Missing? ==> d == Document(None, None, None, None, None)
  {
    match f
    case Missing => Document(None, None, None, None, None)
    case Present(d) => d
  }

  /** `data.get(key, [])`. */
  function OrEmpty<T>(o: Option<seq<T>>): (s: seq<T>)
  {
    match o
    case Some(s) => s
    case None => []
  }

  /** `charger_donnees`: each collection is the stored list when its key is
      present and the empty list when it is not. */
  function LoadDocument(d: Document): (s: Snapshot)
    ensures d.students.Some? ==> s.students == d.students.value
    ensures d.students.None? ==> s.students == []
    ensures d.teachers.Some? ==> s.teachers == d.teachers.value
    ensures d.teachers.None? ==> s.teachers == []
    ensures d.courses.Some? ==> s.courses == d.courses.value
    ensures d.courses.None? ==> s.courses == []
    ensures d.grades.Some? ==> s.grades == d.grades.value
    ensures d.grades.None? ==> s.grades == []
    ensures d.absences.Some? ==> s.absences == d.absences.value
    ensures d.absences.None? ==> s.absences == []
  {
    Snapshot(OrEmpty(d.students), OrEmpty(d.teachers), OrEmpty(d.courses),
             OrEmpty(d.grades), OrEmpty(d.absences))
  }

  /** `sauvegarder_donnees`: the object holding all five lists. */
  function SaveDocument(s: Snapshot): (d: Document)
    ensures d.students.Some? && d.teachers.Some? && d.courses.Some?
    ensures d.grades.Some? && d.absences.Some?
  {
    Document(Some(s.students), Some(s.teachers), Some(s.courses), Some(s.grades), Some(s.absences))
  }

  /** A missing data file loads as five empty collections, not as an
      error. */
  lemma LoadMissingFile()
    ensures LoadDocument(ReadDataFile(Missing)) == Snapshot([], [], [], [], [])
  {
  }

  /** Loading what was saved gives back the same five lists. */
  lemma LoadAfterSave(s: Snapshot)
    ensures LoadDocument(ReadDataFile(Present(SaveDocument(s)))) == s
  {
  }

  /** Saving what was loaded from a document that had all five keys gives
      back that document. */
  lemma SaveAfterLoad(d: Document)
    requires d.students.Some? && d.teachers.Some? && d.courses.Some?
    requires d.grades.Some? && d.absences.Some?
    ensures SaveDocument(LoadDocument(d)) == d
  {
  }
}
