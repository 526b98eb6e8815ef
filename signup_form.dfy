/**
  The signup form: its field state, the chosen role and logo file, the
  three checks run before anything is sent, and the submission to the
  identity store with its error and loading flags.
 */
module SignupForm {
  import opened Types
  import opened Auth
  import opened FileInput
  import opened Collections

  /** Every field of the form, including the confirmation. */
  datatype FormData = FormData(
    fullName: string,
    email: string,
    password: string,
    confirmPassword: string,
    rollNo: string,
    department: string,
    course: string,
    collegeId: string,
    collegeName: string,
    collegeAddress: string,
    collegeLogo: string)

  /** The field names `handleInputChange` is called with. */
  datatype Field =
    | FullName | Email | Password | ConfirmPassword
    | RollNo | Department | Course | CollegeId
    | CollegeName | CollegeAddress | CollegeLogo

  const EmptyForm := FormData("", "", "", "", "", "", "", "", "", "", "")

  function Get(f: FormData, field: Field): string
  {
    match field
    case FullName => f.fullName
    case Email => f.email
    case Password => f.password
    case ConfirmPassword => f.confirmPassword
    case RollNo => f.rollNo
    case Department => f.department
    case Course => f.course
    case CollegeId => f.collegeId
    case CollegeName => f.collegeName
    case CollegeAddress => f.collegeAddress
    case CollegeLogo => f.collegeLogo
  }

  /** `{ ...prev, [field]: value }`. */
  function WithField(f: FormData, field: Field, value: string): (g: FormData)
    ensures Get(g, field) == value
    ensures forall other :: other != field ==> Get(g, other) == Get(f, other)
  {
    match field
    case FullName => f.(fullName := value)
    case Email => f.(email := value)
    case Password => f.(password := value)
    case ConfirmPassword => f.(confirmPassword := value)
    case RollNo => f.(rollNo := value)
    case Department => f.(department := value)
    case Course => f.(course := value)
    case CollegeId => f.(collegeId := value)
    case CollegeName => f.(collegeName := value)
    case CollegeAddress => f.(collegeAddress := value)
    case CollegeLogo => f.(collegeLogo := value)
  }

  /** The largest logo accepted: 10 MiB. */
  const MaxLogoBytes: nat := 10 * 1024 * 1024
  const MinPasswordLength: nat := 6

  const PasswordMismatch := "Passwords do not match"
  const PasswordTooShort := "Password must be at least 6 characters"
  const LogoTooLarge := "College logo file size must be less than 10MB"
  const SignupFailed := "Signup failed. Email might already be in use. Please try again."

  /**
    The checks of `handleSubmit` in their order: confirmation, length, logo
    size. The message of the first failing check, or none when all pass.
   */
  function FirstError(password: string, confirmPassword: string, logo: Option<FileInfo>): (e: Option<string>)
    ensures e.None? <==>
      password == confirmPassword && |password| >= MinPasswordLength && (logo.None? || logo.value.size <= MaxLogoBytes)
    ensures password != confirmPassword ==> e == Some(PasswordMismatch)
    ensures password == confirmPassword && |password| < MinPasswordLength ==> e == Some(PasswordTooShort)
    ensures (password == confirmPassword && |password| >= MinPasswordLength && logo.Some? && logo.value.size > MaxLogoBytes)
            ==> e == Some(LogoTooLarge)
  {
    if password != confirmPassword then Some(PasswordMismatch)
    else if |password| < MinPasswordLength then Some(PasswordTooShort)
    else if logo.Some? && logo.value.size > MaxLogoBytes then Some(LogoTooLarge)
    else None
  }

  /**
    What `handleSubmit` sends: the form's fields, the selected role, and as
    `collegeLogo` the object URL of the chosen file, or the typed value when
    no file was chosen.
   */
  function SubmittedData(f: FormData, role: Role, logo: Option<FileInfo>, objectUrl: string): (d: SignupData)
    ensures d.role == role
    ensures d.collegeLogo == (if logo.Some? then objectUrl else f.collegeLogo)
    ensures d.fullName == f.fullName && d.email == f.email && d.password == f.password
    ensures d.rollNo == f.rollNo && d.department == f.department && d.course == f.course
    ensures d.collegeId == f.collegeId && d.collegeName == f.collegeName && d.collegeAddress == f.collegeAddress
  {
    SignupData(f.fullName, f.email, f.password, role, f.rollNo, f.department, f.course,
               f.collegeId, f.collegeName, f.collegeAddress,
               if logo.Some? then objectUrl else f.collegeLogo)
  }

  class SignupFormState {
    var role: Role
    var formData: FormData
    /** The logo file the file picker reported. */
    var logoFile: Option<FileInfo>
    var error: string
    var loading: bool

    constructor ()
      ensures role == StudentRole && formData == EmptyForm && logoFile.None?
      ensures error == "" && !loading
    {
      role := StudentRole;
      formData := EmptyForm;
      logoFile := None;
      error := "";
      loading := false;
    }

    /** The role radio buttons. */
    method SelectRole(r: Role)
      modifies this
      ensures role == r
      ensures formData == old(formData) && logoFile == old(logoFile) && error == old(error) && loading == old(loading)
    {
      role := r;
    }

    /** The file picker's `onChange`. */
    method SetLogoFile(f: Option<FileInfo>)
      modifies this
      ensures logoFile == f
      ensures role == old(role) && formData == old(formData) && error == old(error) && loading == old(loading)
    {
      logoFile := f;
    }

    /** `handleInputChange`: only the named field changes. */
    method HandleInputChange(field: Field, value: string)
      modifies this
      ensures formData == WithField(old(formData), field, value)
      ensures role == old(role) && logoFile == old(logoFile) && error == old(error) && loading == old(loading)
    {
      formData := WithField(formData, field, value);
    }

    /**
      `handleSubmit`: clear the error; stop with the first failing check's
      message; otherwise sign up with the submitted data, report a refused
      signup, and stop loading. `objectUrl` stands for the URL the browser
      creates for the chosen file.
     */
    method HandleSubmit(auth: AuthStore, objectUrl: string, userId: string, collegeId: string, profileId: string, now: string)
      requires auth.Valid()
      requires forall u <- auth.users :: u.id != userId
      requires forall c <- auth.colleges :: c.id != collegeId
      requires forall a <- auth.admins :: a.id != profileId
      requires forall s <- auth.students :: s.id != profileId
      modifies this, auth
      ensures auth.Valid()
      ensures role == old(role) && formData == old(formData) && logoFile == old(logoFile)
      // a failing check: its message, and nothing is sent
      ensures FirstError(formData.password, formData.confirmPassword, logoFile).Some? ==>
        && error == FirstError(formData.password, formData.confirmPassword, logoFile).value
        && loading == old(loading)
        && auth.users == old(auth.users) && auth.colleges == old(auth.colleges)
        && auth.students == old(auth.students) && auth.admins == old(auth.admins)
        && auth.state == old(auth.state) && auth.stored == old(auth.stored)
      // all checks pass: the store decides, and loading is over
      ensures FirstError(formData.password, formData.confirmPassword, logoFile).None? ==>
        && !loading
        && (error == SignupFailed <==> exists u <- old(auth.users) :: u.email == formData.email)
        && (error == "" <==> forall u <- old(auth.users) :: u.email != formData.email)
      // a refused signup leaves the store and the session as they were
      ensures error == SignupFailed ==>
        && auth.users == old(auth.users) && auth.colleges == old(auth.colleges)
        && auth.students == old(auth.students) && auth.admins == old(auth.admins)
        && auth.state == old(auth.state) && auth.stored == old(auth.stored)
      // an accepted one: the account is appended, signed in and stored, with its admin or student records
      ensures FirstError(formData.password, formData.confirmPassword, logoFile).None? && error == "" ==>
        var d := SubmittedData(formData, role, logoFile, objectUrl);
        var account := NewAccount(d, userId, now);
        && auth.users == old(auth.users) + [account]
        && auth.state == AuthState(Some(account.Public()), true, false)
        && auth.stored == Some(account.Public())
        && (role == AdminRole ==>
              && auth.colleges == old(auth.colleges) + [NewCollege(d, collegeId, userId, now)]
              && auth.admins == old(auth.admins) + [Admin(profileId, userId, collegeId, auth.stored, Some(NewCollege(d, collegeId, userId, now)))]
              && auth.students == old(auth.students))
        && (role != AdminRole ==>
              && auth.students == old(auth.students) + [Student(profileId, userId, d.rollNo, d.department, d.course,
                                                                d.collegeId, auth.stored, Find(old(auth.colleges), CollegeWithId(d.collegeId)))]
              && auth.colleges == old(auth.colleges) && auth.admins == old(auth.admins))
    {
      error := "";
      var check := FirstError(formData.password, formData.confirmPassword, logoFile);
      if check.Some? {
        error := check.value;
        return;
      }
      loading := true;
      var data := SubmittedData(formData, role, logoFile, objectUrl);
      var success := auth.Signup(data, userId, collegeId, profileId, now);
      if !success {
        error := SignupFailed;
      }
      loading := false;
    }
  }
}
