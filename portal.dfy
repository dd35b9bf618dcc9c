/**
 * The backend's shared state: the two import targets and the role tables the
 * login handler reads. The teacher roster is the email column of `teachers`,
 * the table POST /admin fills.
 */
module Portal {
  import opened Wrappers
  import opened Roles
  import opened Sheets
  import opened Tables
  import opened Login

  const CourseColumns: seq<string> := ["department", "code", "title", "instructor", "ects", "type"]
  const TeacherColumns: seq<string> := ["lastname", "name", "email"]

  /** The position of `email` in the teachers' INSERT column list. */
  const EmailColumn: nat := 2

  /** `EmailColumn` is where the teachers' INSERT column list names `email`. */
  lemma EmailColumnIsEmail()
    ensures EmailColumn < |TeacherColumns| && TeacherColumns[EmailColumn] == "email"
  {
  }

  /** `SELECT email FROM teachers`: the non-NULL email values, in table order. */
  function TeacherEmails(rows: seq<Tuple>): (emails: seq<string>)
    ensures forall e :: e in emails <==> exists k :: 0 <= k < |rows| && |rows[k]| > EmailColumn && rows[k][EmailColumn] == Some(e)
  {
    if rows == [] then []
    else
      var rest := TeacherEmails(rows[1..]);
      assert forall k :: 1 <= k < |rows| ==> rows[k] == rows[1..][k - 1];
      assert forall e :: (exists k :: 0 <= k < |rows[1..]| && |rows[1..][k]| > EmailColumn && rows[1..][k][EmailColumn] == Some(e)) ==>
        exists k :: 0 <= k < |rows| && |rows[k]| > EmailColumn && rows[k][EmailColumn] == Some(e) by {
        forall e | exists k :: 0 <= k < |rows[1..]| && |rows[1..][k]| > EmailColumn && rows[1..][k][EmailColumn] == Some(e)
          ensures exists k :: 0 <= k < |rows| && |rows[k]| > EmailColumn && rows[k][EmailColumn] == Some(e)
        {
          var k :| 0 <= k < |rows[1..]| && |rows[1..][k]| > EmailColumn && rows[1..][k][EmailColumn] == Some(e);
          assert rows[k + 1] == rows[1..][k];
        }
      }
      if |rows[0]| > EmailColumn && rows[0][EmailColumn].Some? then [rows[0][EmailColumn].value] + rest else rest
  }

  /** The backend's tables. */
  class Backend {
    const courses: Table
    const teachers: Table
    var assistants: seq<string>
    var students: seq<string>

    ghost predicate Valid()
      reads this
    {
      courses != teachers && courses.columns == CourseColumns && teachers.columns == TeacherColumns
    }

    constructor (assistants: seq<string>, students: seq<string>)
      ensures Valid() && fresh(courses) && fresh(teachers)
      ensures courses.rows == [] && teachers.rows == []
      ensures this.assistants == assistants && this.students == students
    {
      courses := new Table(CourseColumns, []);
      teachers := new Table(TeacherColumns, []);
      this.assistants := assistants;
      this.students := students;
    }

    /** The three role tables as the login handler's queries see them. */
    function CurrentRosters(): (r: Rosters)
      reads this, teachers
      ensures r.assistants == assistants && r.students == students
      ensures forall e :: e in r.teachers <==> exists k :: 0 <= k < |teachers.rows| && |teachers.rows[k]| > EmailColumn && teachers.rows[k][EmailColumn] == Some(e)
    {
      Rosters(assistants, students, TeacherEmails(teachers.rows))
    }

    /** POST /admin/insertcourses. */
    method InsertCourses(file: Option<Parse>, fails: seq<bool>) returns (o: ImportOutcome)
      requires Valid()
      modifies courses
      ensures o == RunImport(file, fails).outcome
      ensures courses.rows == old(courses.rows) + RunImport(file, fails).committed
      ensures teachers.rows == old(teachers.rows)
    {
      o := courses.Import(file, fails);
    }

    /** POST /admin. */
    method InsertTeachers(file: Option<Parse>, fails: seq<bool>) returns (o: ImportOutcome)
      requires Valid()
      modifies teachers
      ensures o == RunImport(file, fails).outcome
      ensures teachers.rows == old(teachers.rows) + RunImport(file, fails).committed
      ensures courses.rows == old(courses.rows)
    {
      o := teachers.Import(file, fails);
    }

    /** POST / for the caller owning `session`, against the current tables. */
    method PostLogin(session: Session, body: Option<string>, collate: string -> string, queryFails: bool) returns (o: LoginOutcome)
      modifies session
      ensures o == Respond(body, CurrentRosters(), collate, queryFails)
      ensures session.email == AfterLogin(old(session.email), o)
    {
      o := session.Login(body, CurrentRosters(), collate, queryFails);
    }
  }

  /**
   * A teacher imported by a POST /admin whose inserts all succeed, from a row whose keys come
   * in the header order and whose third cell is a teacher-class email, can
   * then log in.
   */
  lemma ImportedTeacherCanLogIn(before: seq<Tuple>, rows: seq<Row>, fails: seq<bool>, k: nat,
                                assistants: seq<string>, students: seq<string>, collate: string -> string)
    requires rows != []
    requires forall j :: 0 <= j < |rows| ==> !InsertFails(fails, j)
    requires k < |rows| && DistinctKeys(rows[k]) && Keys(rows[k]) == Headers(rows)
    requires |rows[k]| > EmailColumn
    requires Classify(rows[k][EmailColumn].1) == Teacher
    ensures var after := before + RunImport(Some(Parsed(rows)), fails).committed;
      Respond(Some(rows[k][EmailColumn].1), Rosters(assistants, students, TeacherEmails(after)), collate, false).Authenticated?
  {
    var e := rows[k][EmailColumn].1;
    var after := before + RunImport(Some(Parsed(rows)), fails).committed;
    AlignedRowKeepsCells(Headers(rows), rows[k]);
    assert after[|before| + k] == Values(rows[k]);
    assert e in TeacherEmails(after);
  }
}
