/** The validation schema of the registration form (src/components/auth/Register.js). */
module Registration {

  /** The form's values. Every field starts as the empty string. */
  datatype Form = Form(
    name: string,
    email: string,
    password: string,
    role: string,
    studentId: string,
    department: string)

  datatype Field = Name | Email | Password | RoleField | StudentId | Department

  const AllFields: set<Field> := {Name, Email, Password, RoleField, StudentId, Department}

  /** The roles a user may register with. */
  const RegistrableRoles: seq<string> := ["student", "faculty", "security"]

  /** A string schema's required(): the empty string counts as missing. */
  predicate Present(v: string) {
    v != ""
  }

  /** Whether one field passes its rules. isEmail is the format test of the
      email rule, which this model leaves open. */
  predicate FieldPasses(f: Form, field: Field, isEmail: string -> bool) {
    match field
    case Name => Present(f.name) && |f.name| >= 2
    case Email => Present(f.email) && isEmail(f.email)
    case Password => Present(f.password) && |f.password| >= 6
    case RoleField => Present(f.role) && f.role in RegistrableRoles
    case StudentId => f.role == "student" ==> Present(f.studentId)
    case Department => f.role in ["student", "faculty"] ==> Present(f.department)
  }

  /** The fields the schema reports an error for: a name shorter than two
      characters, a missing or malformed email, a password shorter than six, a
      role outside the three, a missing student id for a student, and a missing
      department for a student or a faculty member. */
  function Errors(f: Form, isEmail: string -> bool): (e: set<Field>)
    ensures Name in e <==> |f.name| < 2
    ensures Email in e <==> f.email == "" || !isEmail(f.email)
    ensures Password in e <==> |f.password| < 6
    ensures RoleField in e <==> f.role !in RegistrableRoles
    ensures StudentId in e <==> f.role == "student" && f.studentId == ""
    ensures Department in e <==> (f.role == "student" || f.role == "faculty") && f.department == ""
  {
    set field | field in AllFields && !FieldPasses(f, field, isEmail)
  }

  /** The schema as a whole: a name of two characters or more, an email in the
      accepted format, a password of six or more, one of the three roles, a
      student id for students, and a department for students and faculty. */
  predicate Valid(f: Form, isEmail: string -> bool) {
    && |f.name| >= 2
    && f.email != "" && isEmail(f.email)
    && |f.password| >= 6
    && f.role in RegistrableRoles
    && (f.role == "student" ==> f.studentId != "")
    && (f.role == "student" || f.role == "faculty" ==> f.department != "")
  }

  /** The form is accepted exactly when no field reports an error. */
  lemma ValidIffNoErrors(f: Form, isEmail: string -> bool)
    ensures Valid(f, isEmail) <==> Errors(f, isEmail) == {}
  {
    if !Valid(f, isEmail) {
      if |f.name| < 2 { assert Name in Errors(f, isEmail); }
      else if !(f.email != "" && isEmail(f.email)) { assert Email in Errors(f, isEmail); }
      else if |f.password| < 6 { assert Password in Errors(f, isEmail); }
      else if f.role !in RegistrableRoles { assert RoleField in Errors(f, isEmail); }
      else if f.role == "student" && f.studentId == "" { assert StudentId in Errors(f, isEmail); }
      else { assert Department in Errors(f, isEmail); }
    }
  }

  /** A security officer registers without a student id or a department:
      whatever those two fields hold does not change the verdict. */
  lemma SecurityNeedsNoStudentIdOrDepartment(f: Form, isEmail: string -> bool, studentId: string, department: string)
    requires f.role == "security"
    ensures Valid(f, isEmail) <==> Valid(f.(studentId := studentId, department := department), isEmail)
    ensures Valid(f.(studentId := "", department := ""), isEmail)
            <==> |f.name| >= 2 && f.email != "" && isEmail(f.email) && |f.password| >= 6
  {
  }

  /** The empty initial form is refused on, at least, name, email, password and role. */
  lemma InitialFormIsRefused(isEmail: string -> bool)
    ensures {Name, Email, Password, RoleField} <= Errors(Form("", "", "", "", "", ""), isEmail)
  {
  }
}
