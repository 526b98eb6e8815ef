/**
  The administrator's dashboard: the status filter over the whole ledger,
  the four stat cards, approve/reject, the CSV export rows, the guard and
  file name of the certificate download, and the actions offered per row.
 */
module AdminDashboard {
  import opened Types
  import opened Collections
  import opened Strings
  import opened Requests
  import opened Certificate

  /** The filter buttons: `'all'` or one status. */
  datatype StatusFilter = All | Only(status: Status)

  /** The test a filter applies to a row. */
  function Shows(f: StatusFilter): BonafideRequest -> bool
  {
    if f.All? then (r: BonafideRequest) => true else HasStatus(f.status)
  }

  /** `filteredRequests`: the rows the table shows, in ledger order. */
  function FilteredRequests(rs: seq<BonafideRequest>, f: StatusFilter): (v: seq<BonafideRequest>)
    ensures f.All? ==> v == rs
    ensures f.Only? ==> v == Filter(rs, HasStatus(f.status))
    ensures forall r :: r in v <==> r in rs && (f.All? || r.status == f.status)
  {
    assert f.All? ==> Filter(rs, Shows(f)) == rs by {
      if f.All? {
        FilterAll(rs, Shows(f));
      }
    }
    Filter(rs, Shows(f))
  }

  /** The stat cards. */
  datatype AdminStats = AdminStats(total: nat, pending: nat, approved: nat, rejected: nat)

  /** `stats`: one count per status over the whole ledger. */
  function Stats(rs: seq<BonafideRequest>): (st: AdminStats)
    ensures st.total == |rs|
    ensures st.pending == |FilteredRequests(rs, Only(Pending))|
    ensures st.approved == |FilteredRequests(rs, Only(Approved))|
    ensures st.rejected == |FilteredRequests(rs, Only(Rejected))|
    ensures st.pending + st.approved + st.rejected == st.total
  {
    StatusCountsPartition(rs);
    AdminStats(|rs|, CountStatus(rs, Pending), CountStatus(rs, Approved), CountStatus(rs, Rejected))
  }

  /** Approving one pending request moves one from the pending card to the approved card. */
  lemma ApproveMovesStat(rs: seq<BonafideRequest>, i: nat, actor: string, now: string)
    requires DistinctIds(rs) && i < |rs| && rs[i].status == Pending
    ensures var st := Stats(UpdateAll(rs, rs[i].id, Approved, actor, now));
      && st.total == Stats(rs).total
      && st.pending == Stats(rs).pending - 1
      && st.approved == Stats(rs).approved + 1
      && st.rejected == Stats(rs).rejected
  {
    DecisionMovesOneCount(rs, i, Approved, actor, now, Pending);
    DecisionMovesOneCount(rs, i, Approved, actor, now, Approved);
    DecisionMovesOneCount(rs, i, Approved, actor, now, Rejected);
  }

  /** `user?.fullName || 'Admin'`: the name recorded as `processedBy`. */
  function ActorName(user: Option<User>): (name: string)
    ensures name != ""
    ensures user.Some? && user.value.fullName != "" ==> name == user.value.fullName
    ensures user.None? || user.value.fullName == "" ==> name == "Admin"
  {
    OrElse(if user.Some? then Some(user.value.fullName) else None, "Admin")
  }

  /** `handleApprove`: approve the request in the name of the signed-in administrator. */
  method HandleApprove(ledger: Ledger, user: Option<User>, requestId: string, now: string)
    requires ledger.Valid()
    modifies ledger
    ensures ledger.Valid()
    ensures ledger.requests == UpdateAll(old(ledger.requests), requestId, Approved, ActorName(user), now)
  {
    ledger.UpdateRequestStatus(requestId, Approved, ActorName(user), now);
  }

  /** `handleReject`: reject the request in the name of the signed-in administrator. */
  method HandleReject(ledger: Ledger, user: Option<User>, requestId: string, now: string)
    requires ledger.Valid()
    modifies ledger
    ensures ledger.Valid()
    ensures ledger.requests == UpdateAll(old(ledger.requests), requestId, Rejected, ActorName(user), now)
  {
    ledger.UpdateRequestStatus(requestId, Rejected, ActorName(user), now);
  }

  /** The twelve column names of the export, in order. */
  const CsvHeader: seq<string> := [
    "Request ID", "Student Name", "Roll Number", "Department", "Course", "Purpose",
    "Academic Year", "Student Year", "Status", "Request Date", "Processed Date", "Processed By"]

  /**
    One exported row, one cell per column of `CsvHeader`. `localeString`
    stands for `new Date(...).toLocaleString()`.
   */
  function CsvRow(r: BonafideRequest, localeString: string -> string): (row: seq<string>)
    ensures |row| == |CsvHeader|
    ensures row[0] == r.id && row[5] == r.purpose && row[6] == r.academicYear && row[7] == r.year
    ensures row[8] == StatusName(r.status) && row[9] == localeString(r.requestDate)
    // the student and decision cells are never blank: a missing value reads N/A
    ensures row[1] != "" && row[2] != "" && row[3] != "" && row[4] != "" && row[11] != ""
    ensures r.student.None? ==> row[1] == "N/A" && row[2] == "N/A" && row[3] == "N/A" && row[4] == "N/A"
    ensures r.student.Some? && r.student.value.rollNo != "" ==> row[2] == r.student.value.rollNo
    ensures r.processedDate.None? ==> row[10] == "N/A"
    ensures r.processedDate.Some? && r.processedDate.value != "" ==> row[10] == localeString(r.processedDate.value)
    ensures r.processedBy.None? ==> row[11] == "N/A"
    ensures r.processedBy.Some? && r.processedBy.value != "" ==> row[11] == r.processedBy.value
    // every `||` cell in full: the value when present and non-empty, N/A otherwise
    ensures row[1] == (if StudentName(r).Some? && StudentName(r).value != "" then StudentName(r).value else "N/A")
    ensures row[2] == (if StudentRollNo(r).Some? && StudentRollNo(r).value != "" then StudentRollNo(r).value else "N/A")
    ensures row[3] == (if StudentDepartment(r).Some? && StudentDepartment(r).value != "" then StudentDepartment(r).value else "N/A")
    ensures row[4] == (if StudentCourse(r).Some? && StudentCourse(r).value != "" then StudentCourse(r).value else "N/A")
    ensures row[10] == (if r.processedDate.Some? && r.processedDate.value != "" then localeString(r.processedDate.value) else "N/A")
    ensures row[11] == (if r.processedBy.Some? && r.processedBy.value != "" then r.processedBy.value else "N/A")
  {
    [ r.id,
      OrElse(StudentName(r), "N/A"),
      OrElse(StudentRollNo(r), "N/A"),
      OrElse(StudentDepartment(r), "N/A"),
      OrElse(StudentCourse(r), "N/A"),
      r.purpose,
      r.academicYear,
      r.year,
      StatusName(r.status),
      localeString(r.requestDate),
      if r.processedDate.Some? && r.processedDate.value != "" then localeString(r.processedDate.value) else "N/A",
      OrElse(r.processedBy, "N/A") ]
  }

  /** `handleExportCsv`'s rows: one per request of the whole ledger, in ledger order. */
  function CsvRows(rs: seq<BonafideRequest>, localeString: string -> string): (rows: seq<seq<string>>)
    ensures |rows| == |rs|
    ensures forall i :: 0 <= i < |rs| ==> rows[i] == CsvRow(rs[i], localeString)
    ensures forall i :: 0 <= i < |rs| ==> |rows[i]| == |CsvHeader| && rows[i][0] == rs[i].id
    decreases |rs|
  {
    if |rs| == 0 then []
    else [CsvRow(rs[0], localeString)] + CsvRows(rs[1..], localeString)
  }

  /**
    `bonafide-certificate-<name>.pdf`, where `<name>` is the student's name
    with every space turned into `_`, or `student` when there is no name.
   */
  function AdminPdfFileName(r: BonafideRequest): (name: string)
    ensures |name| >= 25 && name[..21] == "bonafide-certificate-" && name[|name| - 4..] == ".pdf"
    ensures ' ' !in name[21..|name| - 4]
    ensures StudentName(r).None? || StudentName(r).value == "" ==> name == "bonafide-certificate-student.pdf"
    ensures StudentName(r).Some? && StudentName(r).value != "" ==>
      && |name| == 25 + |StudentName(r).value|
      && name[21..|name| - 4] == ReplaceChar(StudentName(r).value, ' ', '_')
  {
    var base := OrElse(if StudentName(r).Some? then Some(ReplaceChar(StudentName(r).value, ' ', '_')) else None, "student");
    var name := "bonafide-certificate-" + base + ".pdf";
    assert name[21..|name| - 4] == base;
    name
  }

  /**
    `generatePDF` up to the rendering: with no college on the signed-in
    profile it stops with nothing produced; otherwise it renders the
    certificate against that college under the file name above.
   */
  function GeneratePdf(profile: Option<Profile>, r: BonafideRequest): (o: PdfOutcome)
    ensures o.MissingCollege? <==> profile.None? || profile.value.CollegeOf().None?
    ensures o.Produced? ==>
      && o.college == profile.value.CollegeOf().value
      && o.fileName == AdminPdfFileName(r)
      && o.text == Render(r, o.college)
  {
    if profile.None? || profile.value.CollegeOf().None? then MissingCollege
    else
      var college := profile.value.CollegeOf().value;
      Produced(college, Render(r, college), AdminPdfFileName(r))
  }

  /** The buttons on a row of the requests table. */
  function AdminActions(s: Status): (acts: seq<RowAction>)
    ensures ApproveAction in acts <==> s == Pending
    ensures RejectAction in acts <==> s == Pending
    ensures DownloadAction in acts <==> s == Approved
    ensures s == Rejected ==> acts == []
  {
    match s
    case Pending => [ApproveAction, RejectAction]
    case Approved => [DownloadAction]
    case Rejected => []
  }

  /**
    Approving a row replaces its Approve/Reject buttons by the download
    button, and the certificate of that row is filed under its id.
   */
  lemma ApproveOffersDownload(rs: seq<BonafideRequest>, i: nat, user: Option<User>, now: string)
    requires i < |rs|
    ensures var u := UpdateAll(rs, rs[i].id, Approved, ActorName(user), now);
      && AdminActions(u[i].status) == [DownloadAction]
      && u[i].certificatePath == Some(CertificatePath(rs[i].id))
      && u[i].processedBy == Some(ActorName(user))
  {
  }
}
