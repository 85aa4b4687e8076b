/** The five kinds of record the store keeps. In the source each record is a
    dictionary; the keys map to fields as follows: students `nom` (name) and
    `date_ajout` (dateAdded), teachers and courses `nom` (name), grades
    `etudiant` (student) and `note` (value), absences `etudiant` (student)
    and `date` (date). */
module Records {

  datatype Student = Student(name: string, dateAdded: string)

  datatype Teacher = Teacher(name: string)

  datatype Course = Course(name: string)

  datatype Grade = Grade(student: string, value: string)

  datatype Absence = Absence(student: string, date: string)

  /** The contents of the five module-level lists at one moment. */
  datatype Snapshot = Snapshot(
    students: seq<Student>,
    teachers: seq<Teacher>,
    courses: seq<Course>,
    grades: seq<Grade>,
    absences: seq<Absence>)

  /** The fields that edit and delete match exactly. */
  function StudentName(st: Student): string { st.name }
  function TeacherName(t: Teacher): string { t.name }
  function CourseName(c: Course): string { c.name }
  function GradeStudent(g: Grade): string { g.student }
  function AbsenceStudent(a: Absence): string { a.student }
}
