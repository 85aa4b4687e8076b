# School management record store, in Dafny

This project models the record store of a console school-management program
(`main.py`). The store keeps five in-memory lists:

- students (`etudiants`): a name and the moment the student was added
- teachers (`enseignants`): a name
- courses (`cours`): a name
- grades (`notes`): a student name and a value
- absences (`absences`): a student name and a date

The model covers the operations on those lists:

- adding a student, which refuses a name already present when case is ignored
- adding records to the other four lists, with no check
- editing and deleting the first record whose key matches exactly
- searching by name, which ignores case
- searching students by the day they were added
- the stable sort of the students by name or by date added
- loading and saving the JSON data file as a five-key document
- the text export and the CSV export

The modules are:

- `Sequences`: list comprehensions, the first-match scan and `list.remove`
- `Text`: ASCII lower-casing
- `Calendar`: the two timestamp formats, with parsing and formatting
- `Records`: the five record kinds
- `Queries`: the searches
- `Sorting`: `list.sort` with its two keys
- `Persistence`: the data file
- `Export`: the layouts of both exports, each with a reader that recovers the
  exported data
- `Store`: the class `RecordStore`, whose methods change the five lists in place

Inputs from the console are parameters of the methods. So is the current time
of the add. The data file is a value that may be missing.

Sorting by date parses every stored timestamp. When one does not parse, the
program raises a `ValueError` that nothing catches, and `list.sort` leaves the
list as it was. The model returns `UnreadableTimestamp` and leaves the list
unchanged.

## Model

| member | source | states |
|---|---|---|
| Store.RecordStore.constructor | main.py:27-31 | the store starts with all five lists empty |
| Store.RecordStore.AddStudent | main.py:372-379 | The add happens exactly when no stored name equals the new one ignoring case. It then appends one record stamped with the current time; otherwise the list is unchanged. Names unique ignoring case stay unique. The other lists do not change. |
| Store.RecordStore.EditStudent | main.py:381-389 | reports found exactly when some name matches exactly; renames only the first such student, keeping its date; nothing else changes |
| Store.RecordStore.DeleteStudent | main.py:391-398 | reports found exactly when some name matches exactly; the list loses exactly the first such student; nothing else changes |
| Store.RecordStore.AddTeacher | main.py:400-403 | appends the teacher with no check; nothing else changes |
| Store.RecordStore.EditTeacher | main.py:405-413 | renames the first teacher with exactly that name, if there is one; nothing else changes |
| Store.RecordStore.DeleteTeacher | main.py:415-422 | removes the first teacher with exactly that name, if there is one; nothing else changes |
| Store.RecordStore.AddCourse | main.py:424-427 | appends the course with no check; nothing else changes |
| Store.RecordStore.EditCourse | main.py:429-437 | renames the first course with exactly that name, if there is one; nothing else changes |
| Store.RecordStore.DeleteCourse | main.py:439-446 | removes the first course with exactly that name, if there is one; nothing else changes |
| Store.RecordStore.AddGrade | main.py:448-452 | appends the grade with no check that the student exists; nothing else changes |
| Store.RecordStore.EditGrade | main.py:454-461 | replaces the value of the first grade whose student matches exactly, if there is one; nothing else changes |
| Store.RecordStore.DeleteGrade | main.py:463-470 | removes the first grade whose student matches exactly, if there is one; nothing else changes |
| Store.RecordStore.AddAbsence | main.py:472-476 | appends the absence with no check of its date; nothing else changes |
| Store.RecordStore.EditAbsence | main.py:478-486 | replaces the date of the first absence whose student matches exactly, if there is one; nothing else changes |
| Store.RecordStore.DeleteAbsence | main.py:487-494 | removes the first absence whose student matches exactly, if there is one; nothing else changes |
| Store.RecordStore.SortStudents | main.py:129-138 | Criterion "1" sorts by lower-cased name and "2" by the moment added. A sorted list is ordered by the key, keeps the relative order of equal keys and is a permutation. Any other criterion, or an unreadable timestamp under "2", leaves the list unchanged. |
| Store.RecordStore.Load | main.py:151-159 | each list becomes the stored list for its key, or the empty list when the key or the file is missing |
| Store.RecordStore.Save | main.py:140-149 | writes the five-key document of the current lists, which loads back as the same lists |
| Store.RecordStore.ExportText | main.py:169-186 | writes the five sections in fixed order, one line per record; reading the lines back gives the store's contents |
| Export.TextExport | main.py:171-185 | the export has one line per record plus the five headings and the four blank lines between sections, and it opens with the students' heading |
| Store.SectionLines | main.py:172-173 | one section is its opening lines followed by one record line per record, in storage order |
| Export.TextExportRoundTrip | main.py:169-186 | any store's text export reads back as exactly that store |
| Export.ExportCsv | main.py:121-127 | writes the header row `Nom`, `Date d'ajout`, then one row of name and date per student in order; reading the rows back gives the students |
| Export.ReadCsvOfLayout | main.py:121-127 | rows in the export layout read back as the exported students |
| Queries.SearchStudentsByName | main.py:189-199 | The result holds exactly the students whose name equals the query ignoring case, each as often as stored. They appear in storage order. |
| Queries.SearchTeachersByName | main.py:201-210 | the same for teachers |
| Queries.SearchCoursesByName | main.py:212-221 | the same for courses |
| Queries.SearchGradesByStudent | main.py:223-232 | the same for grades, matching the student field |
| Queries.HasStudentNamed | main.py:374 | the duplicate test holds exactly when some stored name equals the new one ignoring case |
| Queries.SearchEmptyIffNoStudentNamed | main.py:374 | the add's duplicate test holds exactly when the name search finds somebody |
| Queries.AddKeepsNamesUnique | main.py:372-379 | appending a name not present ignoring case keeps names unique ignoring case |
| Queries.RenameCanBreakUniqueness | main.py:381-389 | the rename checks nothing; renaming "Bob" to "alice" next to "Alice" breaks uniqueness |
| Queries.ExactMatchIsSearchResult | main.py:383-384 | the record an edit or delete acts on is always among the search results for that name |
| Queries.SearchByNameAfterAdd | main.py:189-199 | after an append, the name search gives the old results, then the new record if it matches |
| Queries.SearchStudentsByDate | main.py:91-106 | An error results exactly when the query date or any stored timestamp does not parse. Otherwise the result is exactly the students added on the queried day, in storage order. |
| Queries.AddedOn | main.py:95-96 | a student added on a day has a readable timestamp whose first ten characters are that day's text; a readable timestamp starting with a valid day's text means the student was added on that day |
| Queries.SearchByDateAfterAdd | main.py:91-106 | a student added at some moment is found, last, by the search for that moment's day |
| Sequences.FirstIndex | main.py:383-384 | the index found is the first whose key matches; there is none exactly when no key matches |
| Sequences.RemoveFirstEqualSpec | main.py:395 | `list.remove(x)` of an element that is there drops the first occurrence of `x` and keeps the rest in order |
| Sequences.RemoveAbsent | main.py:395 | `list.remove(x)` of an element that is not there leaves the list as it was |
| Sequences.RemoveFirstEqualCount | main.py:395 | `list.remove(x)` of an element that is there shortens the list by one and takes exactly one copy of `x` away |
| Sequences.RemoveFoundRecord | main.py:393-395 | `list.remove` of the record found by the scan removes exactly that index |
| Sequences.RemoveAtKeepsRest | main.py:395 | removing one record shortens the list by one and keeps every other record in order |
| Sequences.FilterSpec | main.py:191 | a comprehension filter keeps exactly the matching elements, with their counts and order |
| Sorting.LexLe | main.py:132-135 | Python's `<=` on the sort keys: lexicographic, with a prefix ordered first (its contract); a total order by LexLeRefl, LexLeTotal, LexLeTrans and LexLeAntisym |
| Sorting.SortBy | main.py:132 | the stable sort: ordered by key, each run of equal keys unchanged |
| Sorting.SameRunsIsPermutation | main.py:132 | keeping every run of equal keys makes the result a permutation |
| Sorting.StableSortIsUnique | main.py:132 | two lists ordered by key with the same runs are equal, so any stable sort, Python's included, agrees with SortBy |
| Sorting.NameKey | main.py:132 | the key of criterion "1" is the name's characters, each lower-cased, as code points |
| Sorting.NameKeysEqual | main.py:132 | two students have the same name key exactly when their names are equal ignoring case |
| Sorting.TimestampKey | main.py:135 | the key of criterion "2" has six fields for a readable timestamp and is empty otherwise |
| Sorting.TimestampKeysEqual | main.py:135 | two readable timestamps have the same key exactly when they are the same text |
| Sorting.SortByNameExample | main.py:131-133 | "Bob", "alice", "Alice" sort by name to "alice", "Alice", "Bob" |
| Text.EqualsIgnoreCaseCharwise | main.py:191 | two names are equal ignoring case exactly when they have the same length and lower-case to the same characters |
| Text.LowerString | main.py:191 | ASCII lower-casing keeps the length, leaves no upper-case ASCII letter and keeps every other character |
| Text.EqualsIgnoreCase | main.py:191 | `a.lower() == b.lower()`, also used at lines 203, 214, 225 and 374: names that are equal are equal ignoring case, and names equal ignoring case have the same length |
| Calendar.FormatTimestamp | main.py:377 | the timestamp text is 19 characters: the date's text, a space, then the time with `:` between its fields |
| Calendar.FormatDateInjective | main.py:96 | two valid dates with the same text are the same date |
| Calendar.ParseDate | main.py:94 | a parsed date is a valid calendar date and formats back to the query text |
| Calendar.ParseTimestamp | main.py:96 | a parsed timestamp is valid and formats back to the stored text |
| Calendar.ParseFormatTimestamp | main.py:376-377 | every timestamp the add writes parses back to the moment it was written |
| Calendar.ParseFormatDate | main.py:94-96 | every valid date's text parses back to that date |
| Calendar.ParseDateExamples | main.py:91-94 | "2023/01/01" is refused and "2023-01-01" is 1 January 2023 |
| Persistence.ReadDataFile | main.py:33-39 | a missing file reads as the empty object |
| Persistence.LoadDocument | main.py:153-158 | for each of the five keys, a key that is present loads as its list and a key that is absent loads as the empty list |
| Persistence.LoadMissingFile | main.py:33-39 | a missing data file loads as five empty lists |
| Persistence.SaveDocument | main.py:140-147 | the saved document has all five keys |
| Persistence.LoadAfterSave | main.py:140-159 | loading what was saved gives back the same five lists |
| Persistence.SaveAfterLoad | main.py:140-159 | saving what was loaded from a complete document gives back that document |

## Left out

- The menus, `input`, `print`, colours and `argparse` are left out. Their choices and answers are method parameters.
- The user accounts are left out: registration, login and the credential file (`etudiants.json`).
- The statistics display and the students' listing are left out. They only print.
- The Word export (`exporter_vers_doc`) is left out. It goes through a foreign library.
- `datetime.now()` is left out; the add takes the current moment as a parameter.
- The JSON text of the data file is not modelled. A document is the parsed object, and a malformed file is not modelled.
- Records missing a key are not modelled. In the program such a record makes the code raise `KeyError`. Every record here has all its fields.
- How the text export prints one record (`str()` of a dictionary) is left out. A record line carries the record itself.
- How the CSV writer quotes a field is left out. A row is its list of fields.
- Text.Lower: lower-cases ASCII letters only, where Python's `str.lower` covers all of Unicode.
- Calendar.ParseDate: refuses three forms that `strptime` accepts. These are fields without zero padding such as `2023-1-5`, a day padded with a space such as `2023-01- 5`, and digits other than ASCII ones. The date search then reports an invalid format where the program searches that day.
- Calendar.ParseTimestamp: refuses fields without zero padding, fields padded with a space, more or other white space than one space between date and time, and digits other than ASCII ones. The add always writes the canonical form.
- Calendar.FormatTimestamp: pads the year to four digits, and the store only writes years from 1 to 9999.
- Sequences.RemoveFirstEqual: returns the list unchanged where `list.remove` raises `ValueError` for a missing element. Every delete removes a record it has just found, so that case does not arise in the store.
- Store.RecordStore.SortStudents: the uncaught `ValueError` of a date sort over an unreadable timestamp becomes the outcome `UnreadableTimestamp`.
- Aliasing is left out. The program's edits update a dictionary in place, and the model replaces the record in the list. No other reference to a record exists in the program.
