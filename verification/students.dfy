/**
 The student register of the C++ demonstration program: a list of names, a map from
 name to grades and a separate counter, changed by `do_stuff_with_student_data` and
 driven by the menu loop of `main`. The three globals become one immutable `School`
 value; every operation returns the new value with what it reports.
 */
module Students {

  /** The three globals: names in insertion order, grades by name, and the student counter. */
  datatype School = School(names: seq<string>, grades: map<string, seq<int>>, count: int)

  /** The state before the first operation. */
  const Empty := School([], map[], 0)

  /** The counter counts the names, and the map has a key for exactly the listed names. */
  ghost predicate Consistent(s: School) {
    && s.count == |s.names|
    && (forall n :: n in s.grades <==> n in s.names)
  }

  /** One line of the listing: a name and its grades. */
  datatype Row = Row(name: string, grades: seq<int>)

  /** What an operation writes to standard output. */
  datatype Report =
    | Added(name: string)
    | GradeAdded(grade: int, name: string)
    | NotFound(name: string)
    | Listing(rows: seq<Row>, total: int)
    | Present(name: string)
    | Missing(name: string)
    | InvalidOperation
    | OutOfBounds
    | Exiting
    | InvalidChoice

  datatype Step = Step(school: School, report: Report)

  // ---------------------------------------------------------------------------
  // do_stuff_with_student_data
  // ---------------------------------------------------------------------------

  /**
   The listing of `names` in order. `operator[]` inserts an empty grade list for a
   name the map lacks, so the map comes back too.
   */
  function ListFrom(names: seq<string>, grades: map<string, seq<int>>): (seq<Row>, map<string, seq<int>>)
    decreases |names|
  {
    if names == [] then ([], grades)
    else
      var g := if names[0] in grades then grades else grades[names[0] := []];
      var rest := ListFrom(names[1..], g);
      ([Row(names[0], g[names[0]])] + rest.0, rest.1)
  }

  /**
   When every listed name is already a key, the listing shows each name with its own
   grades, in order, and the map is left as it was.
   */
  lemma {:induction false} ListFromKeys(names: seq<string>, grades: map<string, seq<int>>)
    requires forall k :: 0 <= k < |names| ==> names[k] in grades
    ensures var (rows, g) := ListFrom(names, grades);
      && g == grades
      && |rows| == |names|
      && forall k :: 0 <= k < |names| ==> rows[k] == Row(names[k], grades[names[k]])
    decreases |names|
  {
    if names != [] {
      var tail := names[1..];
      assert forall k :: 0 <= k < |tail| ==> tail[k] == names[k + 1];
      ListFromKeys(tail, grades);
      var rest := ListFrom(tail, grades);
      var rows := ListFrom(names, grades).0;
      assert rows == [Row(names[0], grades[names[0]])] + rest.0;
      forall k | 0 <= k < |names| ensures rows[k] == Row(names[k], grades[names[k]]) {
        if k > 0 {
          assert rows[k] == rest.0[k - 1];
        }
      }
    }
  }

  /**
   `do_stuff_with_student_data(code, name, grade)`: 1 adds a student, 2 adds a grade,
   3 lists everyone, 4 looks a name up, and any other code changes nothing.
   */
  function DoStuff(s: School, code: int, name: string, grade: int): Step {
    if code == 1 then
      Step(School(s.names + [name], s.grades[name := []], s.count + 1), Added(name))
    else if code == 2 then
      if name in s.grades then
        Step(s.(grades := s.grades[name := s.grades[name] + [grade]]), GradeAdded(grade, name))
      else Step(s, NotFound(name))
    else if code == 3 then
      var (rows, g) := ListFrom(s.names, s.grades);
      Step(s.(grades := g), Listing(rows, s.count))
    else if code == 4 then
      Step(s, if name in s.names then Present(name) else Missing(name))
    else Step(s, InvalidOperation)
  }

  /** Every operation keeps the counter equal to the number of names and the map's keys equal to the names. */
  lemma DoStuffConsistent(s: School, code: int, name: string, grade: int)
    requires Consistent(s)
    ensures Consistent(DoStuff(s, code, name, grade).school)
  {
    if code == 3 {
      ListFromKeys(s.names, s.grades);
    } else if code == 1 {
      var t := DoStuff(s, code, name, grade).school;
      forall n ensures n in t.grades <==> n in t.names {
        assert n in t.names <==> n in s.names || n == name;
      }
    }
  }

  /**
   Adding a student appends the name even when it is already listed, resets that
   name's grades to empty, counts one more student and leaves every other student's
   grades alone.
   */
  lemma AddStudent(s: School, name: string, grade: int)
    ensures var t := DoStuff(s, 1, name, grade);
      && t.report == Added(name)
      && t.school.names == s.names + [name]
      && t.school.count == s.count + 1
      && t.school.grades.Keys == s.grades.Keys + {name}
      && t.school.grades[name] == []
      && forall n :: n in s.grades && n != name ==> t.school.grades[n] == s.grades[n]
  {
  }

  /**
   A grade is appended to a known student's list, whatever its value; for an unknown
   name nothing changes and the name is reported as not found.
   */
  lemma AddGrade(s: School, name: string, grade: int)
    ensures var t := DoStuff(s, 2, name, grade);
      && t.school.names == s.names && t.school.count == s.count
      && (name in s.grades ==>
            && t.report == GradeAdded(grade, name)
            && t.school.grades.Keys == s.grades.Keys
            && t.school.grades[name] == s.grades[name] + [grade]
            && forall n :: n in s.grades && n != name ==> t.school.grades[n] == s.grades[n])
      && (name !in s.grades ==> t == Step(s, NotFound(name)))
  {
  }

  /**
   On a consistent register the listing leaves the state unchanged, shows every name
   in order with its own grades, and reports the counter as the total.
   */
  lemma PrintUnchanged(s: School, name: string, grade: int)
    requires Consistent(s)
    ensures var t := DoStuff(s, 3, name, grade);
      && t.school == s
      && t.report.Listing?
      && t.report.total == |s.names|
      && |t.report.rows| == |s.names|
      && forall k :: 0 <= k < |s.names| ==> t.report.rows[k] == Row(s.names[k], s.grades[s.names[k]])
  {
    ListFromKeys(s.names, s.grades);
  }

  /** Looking a name up changes nothing and answers whether the name is listed. */
  lemma LookupUnchanged(s: School, name: string, grade: int)
    ensures var t := DoStuff(s, 4, name, grade);
      t.school == s && (t.report == Present(name) <==> name in s.names)
      && (t.report == Missing(name) <==> name !in s.names)
  {
  }

  /** A code other than 1 to 4 changes nothing and is reported as invalid. */
  lemma InvalidCodeUnchanged(s: School, code: int, name: string, grade: int)
    requires code < 1 || 4 < code
    ensures DoStuff(s, code, name, grade) == Step(s, InvalidOperation)
  {
  }

  /** Operation 4's loop: scans the names until one equals `name`. */
  method FindStudent(names: seq<string>, name: string) returns (found: bool)
    ensures found <==> name in names
  {
    found := false;
    var i := 0;
    while i < |names|
      invariant 0 <= i <= |names|
      invariant !found && name !in names[..i]
    {
      if names[i] == name {
        found := true;
        break;
      }
      assert names[..i + 1] == names[..i] + [names[i]];
      i := i + 1;
    }
    if !found {
      assert names[..i] == names;
    }
  }

  // ---------------------------------------------------------------------------
  // main
  // ---------------------------------------------------------------------------

  /** `is_valid_grade`: the hard-coded range 0 to 100, both ends included. */
  predicate IsValidGrade(g: int) {
    0 <= g && g <= 100
  }

  /** Every stored grade passed `is_valid_grade`. */
  ghost predicate GradesInRange(s: School) {
    forall n :: n in s.grades ==> forall k :: 0 <= k < |s.grades[n]| ==> IsValidGrade(s.grades[n][k])
  }

  /** One round of the menu: the choice, and the name and grade it reads when it needs them. */
  datatype Entry = Entry(choice: int, name: string, grade: int)

  /**
   One pass of the `switch`: choice 2 forwards the grade only when it is valid, 0 says
   goodbye, and an unknown choice is refused without calling the operation.
   */
  function MenuStep(s: School, e: Entry): Step {
    match e.choice
    case 1 => DoStuff(s, 1, e.name, -1)
    case 2 => if IsValidGrade(e.grade) then DoStuff(s, 2, e.name, e.grade) else Step(s, OutOfBounds)
    case 3 => DoStuff(s, 3, "", -1)
    case 4 => DoStuff(s, 4, e.name, -1)
    case 0 => Step(s, Exiting)
    case _ => Step(s, InvalidChoice)
  }

  /** The `do … while (choice != 0)` loop over the entries typed, up to and including the first 0. */
  function Session(s: School, entries: seq<Entry>): School
    decreases |entries|
  {
    if entries == [] then s
    else
      var t := MenuStep(s, entries[0]).school;
      if entries[0].choice == 0 then t else Session(t, entries[1..])
  }

  /** An out-of-range grade is refused at the menu and changes nothing. */
  lemma MenuRejectsGrade(s: School, name: string, grade: int)
    requires !IsValidGrade(grade)
    ensures MenuStep(s, Entry(2, name, grade)) == Step(s, OutOfBounds)
  {
  }

  /** A menu step keeps the register consistent and every stored grade in range. */
  lemma MenuStepKeeps(s: School, e: Entry)
    requires Consistent(s) && GradesInRange(s)
    ensures Consistent(MenuStep(s, e).school) && GradesInRange(MenuStep(s, e).school)
  {
    var t := MenuStep(s, e).school;
    if e.choice == 1 {
      DoStuffConsistent(s, 1, e.name, -1);
    } else if e.choice == 2 {
      DoStuffConsistent(s, 2, e.name, e.grade);
      if IsValidGrade(e.grade) && e.name in s.grades {
        forall n | n in t.grades ensures forall k :: 0 <= k < |t.grades[n]| ==> IsValidGrade(t.grades[n][k]) {
          if n == e.name {
            assert t.grades[n] == s.grades[n] + [e.grade];
          }
        }
      }
    } else if e.choice == 3 {
      PrintUnchanged(s, "", -1);
    }
  }

  /** However the menu is driven, the register stays consistent and holds only grades from 0 to 100. */
  lemma {:induction false} SessionKeeps(s: School, entries: seq<Entry>)
    requires Consistent(s) && GradesInRange(s)
    ensures Consistent(Session(s, entries)) && GradesInRange(Session(s, entries))
    decreases |entries|
  {
    if entries != [] {
      MenuStepKeeps(s, entries[0]);
      if entries[0].choice != 0 {
        SessionKeeps(MenuStep(s, entries[0]).school, entries[1..]);
      }
    }
  }

  /** Starting from the empty register, every grade stored through the menu is between 0 and 100. */
  lemma SessionGrades(entries: seq<Entry>)
    ensures Consistent(Session(Empty, entries)) && GradesInRange(Session(Empty, entries))
  {
    SessionKeeps(Empty, entries);
  }
}
