/**
  The student's dashboard: the student's own requests and their stat
  cards, the new-request form and its submission, and the certificate
  download. It is mounted only for a session that is not an
  administrator's, whose profile lookup yields a student profile or none.
 */
module StudentDashboard {
  import opened Types
  import opened Collections
  import opened Strings
  import opened Requests
  import opened Certificate
  import opened Auth

  /** `profile?.id || ''`: the id the dashboard files and looks up requests under. */
  function StudentId(profile: Option<Student>): (id: string)
    ensures profile.None? ==> id == ""
    ensures profile.Some? ==> id == profile.value.id
  {
    OrElse(if profile.Some? then Some(profile.value.id) else None, "")
  }

  /** `myRequests`: the student's own requests, in ledger order. */
  function MyRequests(rs: seq<BonafideRequest>, profile: Option<Student>): (mine: seq<BonafideRequest>)
    ensures forall r :: r in mine <==> r in rs && r.studentId == StudentId(profile)
    // the ledger's own per-student read, so `ByStudentIsSubsequence` gives the order
    ensures mine == ByStudent(rs, StudentId(profile))
    ensures profile.None? ==> forall r <- mine :: r.studentId == ""
  {
    ByStudent(rs, StudentId(profile))
  }

  /** The stat cards. */
  datatype StudentStats = StudentStats(total: nat, pending: nat, approved: nat)

  /** `stats`: the pending and approved counts among the student's own requests. */
  function Stats(mine: seq<BonafideRequest>): (st: StudentStats)
    ensures st.total == |mine|
    ensures st.pending == CountStatus(mine, Pending) && st.approved == CountStatus(mine, Approved)
    ensures st.pending + st.approved <= st.total
    ensures st.pending + st.approved == st.total <==> forall r <- mine :: r.status != Rejected
  {
    StatusCountsPartition(mine);
    StudentStats(|mine|, CountStatus(mine, Pending), CountStatus(mine, Approved))
  }

  /** The four fields of the new-request form. */
  datatype RequestForm = RequestForm(purpose: string, academicYear: string, year: string, contactInfo: string)

  /** The field names `handleInputChange` is called with. */
  datatype FormField = Purpose | AcademicYear | Year | ContactInfo

  const EmptyForm := RequestForm("", "", "", "")

  function Get(f: RequestForm, field: FormField): string
  {
    match field
    case Purpose => f.purpose
    case AcademicYear => f.academicYear
    case Year => f.year
    case ContactInfo => f.contactInfo
  }

  /** `{ ...prev, [field]: value }`. */
  function WithField(f: RequestForm, field: FormField, value: string): (g: RequestForm)
    ensures Get(g, field) == value
    ensures forall other :: other != field ==> Get(g, other) == Get(f, other)
  {
    match field
    case Purpose => f.(purpose := value)
    case AcademicYear => f.(academicYear := value)
    case Year => f.(year := value)
    case ContactInfo => f.(contactInfo := value)
  }

  /** `{ ...formData, studentId, student: profile }`: the draft the form submits. */
  function DraftFrom(form: RequestForm, profile: Option<Student>): (d: RequestDraft)
    ensures Blank(d)
    ensures d.studentId == StudentId(profile) && d.student == profile
    ensures d.purpose == form.purpose && d.academicYear == form.academicYear
    ensures d.year == form.year && d.contactInfo == form.contactInfo
  {
    RequestDraft(StudentId(profile), form.purpose, form.academicYear, form.year, form.contactInfo,
                 None, None, None, profile)
  }

  /**
    A request submitted from the dashboard is settled and pending, carries
    no decision fields, and heads the student's own list.
   */
  lemma DashboardSubmission(rs: seq<BonafideRequest>, form: RequestForm, profile: Option<Student>, id: string, now: string)
    ensures var r := Submit(DraftFrom(form, profile), id, now);
      && Settled(r) && r.status == Pending
      && r.certificatePath.None? && r.processedDate.None? && r.processedBy.None?
      && MyRequests([r] + rs, profile) == [r] + MyRequests(rs, profile)
  {
    SubmitSettledIffBlank(DraftFrom(form, profile), id, now);
    SubmitThenByStudent(rs, DraftFrom(form, profile), id, now, StudentId(profile));
  }

  /** The form state of the dashboard. */
  class StudentDashboardView {
    var formData: RequestForm
    var showRequestForm: bool

    constructor ()
      ensures formData == EmptyForm && !showRequestForm
    {
      formData := EmptyForm;
      showRequestForm := false;
    }

    /** The New Request button shows or hides the form. */
    method ToggleRequestForm()
      modifies this
      ensures showRequestForm == !old(showRequestForm) && formData == old(formData)
    {
      showRequestForm := !showRequestForm;
    }

    /** The Cancel button hides the form and keeps what was typed. */
    method CancelRequestForm()
      modifies this
      ensures !showRequestForm && formData == old(formData)
    {
      showRequestForm := false;
    }

    /** `handleInputChange`: only the named field changes. */
    method HandleInputChange(field: FormField, value: string)
      modifies this
      ensures formData == WithField(old(formData), field, value)
      ensures showRequestForm == old(showRequestForm)
    {
      formData := WithField(formData, field, value);
    }

    /** `handleSubmit`: file the request, then clear and hide the form. */
    method HandleSubmit(ledger: Ledger, profile: Option<Student>, id: string, now: string)
      requires ledger.Valid()
      requires forall r <- ledger.requests :: r.id != id
      modifies this, ledger
      ensures ledger.Valid()
      ensures ledger.requests == [Submit(DraftFrom(old(formData), profile), id, now)] + old(ledger.requests)
      ensures formData == EmptyForm && !showRequestForm
    {
      ledger.SubmitRequest(DraftFrom(formData, profile), id, now);
      formData := EmptyForm;
      showRequestForm := false;
    }
  }

  /** `bonafide-certificate-<request id>.pdf`. */
  function StudentPdfFileName(r: BonafideRequest): (name: string)
    ensures |name| == 25 + |r.id|
    ensures name[..21] == "bonafide-certificate-" && name[21..|name| - 4] == r.id && name[|name| - 4..] == ".pdf"
  {
    "bonafide-certificate-" + r.id + ".pdf"
  }

  /**
    `downloadCertificate` up to the rendering: the college is looked up by
    the profile's `collegeId`; with none found it stops with nothing
    produced.
   */
  function DownloadCertificate(profile: Option<Student>, colleges: seq<College>, r: BonafideRequest): (o: PdfOutcome)
    ensures o.MissingCollege? <==> profile.None? || forall c <- colleges :: c.id != profile.value.collegeId
    ensures o.Produced? ==>
      && o.college in colleges && o.college.id == profile.value.collegeId
      && (exists k :: 0 <= k < |colleges| && colleges[k] == o.college
                      && forall j :: 0 <= j < k ==> colleges[j].id != profile.value.collegeId)
      && o.fileName == StudentPdfFileName(r)
      && o.text == Render(r, o.college)
  {
    if profile.None? then MissingCollege
    else match Find(colleges, CollegeWithId(profile.value.collegeId))
      case None => MissingCollege
      case Some(college) => Produced(college, Render(r, college), StudentPdfFileName(r))
  }

  /** The buttons on a row of the student's table: download only, and only once approved. */
  function StudentActions(s: Status): (acts: seq<RowAction>)
    ensures DownloadAction in acts <==> s == Approved
    ensures ApproveAction !in acts && RejectAction !in acts
  {
    if s == Approved then [DownloadAction] else []
  }
}
