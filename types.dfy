/**
  The records shared by the whole application: accounts, colleges, the two
  kinds of profile, certificate requests and the session state.
  Optional fields (`logo?`, `user?`, `certificatePath?`, ...) are `Option`s.
 */
module Types {

  datatype Option<+T> = None | Some(value: T)

  /** An account is either a college administrator or a student. */
  datatype Role = AdminRole | StudentRole

  /** A request is pending until an administrator approves or rejects it. */
  datatype Status = Pending | Approved | Rejected

  /** The text the application uses for a status (CSV cells, badges). */
  function StatusName(s: Status): string
  {
    match s
    case Pending => "pending"
    case Approved => "approved"
    case Rejected => "rejected"
  }

  /** The buttons a dashboard offers on one request. */
  datatype RowAction = ApproveAction | RejectAction | DownloadAction

  /** The decision an administrator takes on a request: never `Pending`. */
  type Decision = s: Status | !s.Pending? witness Approved

  datatype User = User(
    id: string,
    fullName: string,
    email: string,
    role: Role,
    createdAt: string)

  /** An entry of the account table: the user record plus its plaintext password. */
  datatype UserWithPassword = UserWithPassword(
    id: string,
    fullName: string,
    email: string,
    role: Role,
    createdAt: string,
    password: string)
  {
    /** The same record with the password field dropped. */
    function Public(): User
    {
      User(id, fullName, email, role, createdAt)
    }
  }

  /** A college; `adminId` is the id of the user who administers it. */
  datatype College = College(
    id: string,
    name: string,
    logo: Option<string>,
    address: string,
    adminId: string,
    createdAt: string)

  datatype Student = Student(
    id: string,
    userId: string,
    rollNo: string,
    department: string,
    course: string,
    collegeId: string,
    user: Option<User>,
    college: Option<College>)

  datatype Admin = Admin(
    id: string,
    userId: string,
    collegeId: string,
    user: Option<User>,
    college: Option<College>)

  /** What the profile lookup returns: an administrator or a student profile. */
  datatype Profile = AdminProfile(admin: Admin) | StudentProfile(student: Student)
  {
    function Id(): string
    {
      match this
      case AdminProfile(a) => a.id
      case StudentProfile(s) => s.id
    }

    function CollegeOf(): Option<College>
    {
      match this
      case AdminProfile(a) => a.college
      case StudentProfile(s) => s.college
    }
  }

  datatype BonafideRequest = BonafideRequest(
    id: string,
    studentId: string,
    purpose: string,
    academicYear: string,
    year: string,
    contactInfo: string,
    status: Status,
    certificatePath: Option<string>,
    requestDate: string,
    processedDate: Option<string>,
    processedBy: Option<string>,
    student: Option<Student>)

  /** A request without the three fields the ledger assigns (`id`, `requestDate`, `status`). */
  datatype RequestDraft = RequestDraft(
    studentId: string,
    purpose: string,
    academicYear: string,
    year: string,
    contactInfo: string,
    certificatePath: Option<string>,
    processedDate: Option<string>,
    processedBy: Option<string>,
    student: Option<Student>)

  datatype AuthState = AuthState(
    user: Option<User>,
    isAuthenticated: bool,
    loading: bool)
}
