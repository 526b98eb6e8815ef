/**
  The certificate: the label formatter used for department, course and
  purpose, the `'N/A'` defaults of the certificate text, and whether the
  college logo is shown.
 */
module Certificate {
  import opened Types
  import opened Strings

  /** `\w`: an ASCII letter, digit or underscore. */
  predicate IsWordChar(c: char)
  {
    'a' <= c <= 'z' || 'A' <= c <= 'Z' || '0' <= c <= '9' || c == '_'
  }

  /** `toUpperCase` on one character as the formatter applies it: only `a`-`z` change. */
  function Upper(c: char): (u: char)
    ensures 'a' <= c <= 'z' ==> 'A' <= u <= 'Z' && u as int == c as int - 32
    ensures !('a' <= c <= 'z') ==> u == c
    ensures IsWordChar(u) <==> IsWordChar(c)
  {
    if 'a' <= c <= 'z' then (c as int - 32) as char else c
  }

  /** `\b\w` matches at position `i`: a word character not preceded by one. */
  predicate StartsWord(s: string, i: nat)
    requires i < |s|
  {
    IsWordChar(s[i]) && (i == 0 || !IsWordChar(s[i - 1]))
  }

  /** `s.replace(/\b\w/g, l => l.toUpperCase())`: upper-case the first character of every word. */
  function CapitalizeWords(s: string): (r: string)
    ensures |r| == |s|
    ensures forall i :: 0 <= i < |s| ==> r[i] == (if StartsWord(s, i) then Upper(s[i]) else s[i])
    decreases |s|
  {
    if |s| == 0 then ""
    else
      var n := |s| - 1;
      CapitalizeWords(s[..n]) + [if StartsWord(s, n) then Upper(s[n]) else s[n]]
  }

  /** Where two strings agree on which positions hold word characters, they agree on where words start. */
  lemma StartsWordKept(s: string, r: string, i: nat)
    requires |r| == |s| && i < |s|
    requires forall j :: 0 <= j < |s| ==> (IsWordChar(r[j]) <==> IsWordChar(s[j]))
    ensures StartsWord(r, i) <==> StartsWord(s, i)
  {
  }

  /** Capitalising twice changes nothing more: word starts stay word starts. */
  lemma CapitalizeWordsIdempotent(s: string)
    ensures CapitalizeWords(CapitalizeWords(s)) == CapitalizeWords(s)
  {
    var r := CapitalizeWords(s);
    var rr := CapitalizeWords(r);
    assert forall j :: 0 <= j < |s| ==> (IsWordChar(r[j]) <==> IsWordChar(s[j]));
    forall i | 0 <= i < |s| ensures rr[i] == r[i] {
      StartsWordKept(s, r, i);
    }
  }

  /**
    `formatLabel`: `'N/A'` for a missing or empty value; otherwise hyphens
    become spaces and every word starts with a capital.
   */
  function FormatLabel(value: Option<string>): (r: string)
    ensures value.None? || value.value == "" ==> r == "N/A"
    ensures value.Some? && value.value != "" ==> |r| == |value.value|
    ensures '-' !in r
    ensures value.Some? && value.value != "" ==>
      var t := ReplaceChar(value.value, '-', ' ');
      forall i :: 0 <= i < |t| ==> r[i] == (if StartsWord(t, i) then Upper(t[i]) else t[i])
  {
    if value.None? || value.value == "" then "N/A"
    else
      var r := CapitalizeWords(ReplaceChar(value.value, '-', ' '));
      assert forall i :: 0 <= i < |r| ==> r[i] != '-';
      r
  }

  /** Formatting a formatted label gives it back unchanged. */
  lemma FormatLabelIdempotent(value: Option<string>)
    ensures FormatLabel(Some(FormatLabel(value))) == FormatLabel(value)
  {
    if value.None? || value.value == "" {
      NotApplicableIsFixed();
    } else {
      var t := ReplaceChar(value.value, '-', ' ');
      var r := CapitalizeWords(t);
      assert FormatLabel(value) == r;
      assert ReplaceChar(r, '-', ' ') == r;
      CapitalizeWordsIdempotent(t);
    }
  }

  /** The placeholder is itself left alone by the formatter. */
  lemma NotApplicableIsFixed()
    ensures FormatLabel(Some("N/A")) == "N/A"
  {
    assert ReplaceChar("N/A", '-', ' ') == "N/A";
    assert StartsWord("N/A", 0) && !StartsWord("N/A", 1) && StartsWord("N/A", 2);
    assert CapitalizeWords("N/A") == "N/A";
  }

  /** A non-empty run of lower-case ASCII letters. */
  predicate LowerWord(w: string)
  {
    |w| > 0 && forall i :: 0 <= i < |w| ==> 'a' <= w[i] <= 'z'
  }

  /** The word with its first letter upper-cased. */
  function Capitalized(w: string): string
    requires |w| > 0
  {
    [Upper(w[0])] + w[1..]
  }

  /** Between two words, the hyphen is the only `-`, so it alone becomes a space. */
  lemma DehyphenPair(a: string, b: string)
    requires LowerWord(a) && LowerWord(b)
    ensures ReplaceChar(a + "-" + b, '-', ' ') == a + " " + b
  {
    var s := a + "-" + b;
    var k := |a|;
    forall i | 0 <= i < |s| && i != k ensures s[i] != '-' {
      if i < k {
        assert s[i] == a[i];
      } else {
        assert s[i] == b[i - k - 1];
      }
    }
    ReplaceSingle(s, k, '-', ' ');
    assert s[k := ' '] == a + " " + b;
  }

  /** Two words separated by a space: each one's first letter, and only that, is upper-cased. */
  lemma CapitalizePair(a: string, b: string)
    requires LowerWord(a) && LowerWord(b)
    ensures CapitalizeWords(a + " " + b) == Capitalized(a) + " " + Capitalized(b)
  {
    var t := a + " " + b;
    var k := |a|;
    var r := CapitalizeWords(t);
    var e := Capitalized(a) + " " + Capitalized(b);
    forall i | 0 <= i < |t| ensures r[i] == e[i] {
      if i < k {
        assert t[i] == a[i] && e[i] == Capitalized(a)[i];
        if i > 0 {
          assert t[i - 1] == a[i - 1];
        }
      } else if i > k {
        assert t[i] == b[i - k - 1] && e[i] == Capitalized(b)[i - k - 1];
        if i > k + 1 {
          assert t[i - 1] == b[i - k - 2];
        }
      }
    }
  }

  /**
    The form values are lower-case words joined by hyphens: two such words
    come out capitalised and separated by a space.
   */
  lemma HyphenatedPairLabel(a: string, b: string)
    requires LowerWord(a) && LowerWord(b)
    ensures FormatLabel(Some(a + "-" + b)) == Capitalized(a) + " " + Capitalized(b)
  {
    DehyphenPair(a, b);
    CapitalizePair(a, b);
  }

  /** A purpose value of the request form, as printed on the certificate. */
  lemma PurposeLabelExample()
    ensures FormatLabel(Some("bank-loan")) == "Bank Loan"
  {
    assert LowerWord("bank") && LowerWord("loan");
    assert Capitalized("bank") + " " + Capitalized("loan") == "Bank Loan";
    assert "bank" + "-" + "loan" == "bank-loan";
    HyphenatedPairLabel("bank", "loan");
  }

  /** A department value of the signup form, as printed on the certificate. */
  lemma DepartmentLabelExample()
    ensures FormatLabel(Some("computer-science")) == "Computer Science"
  {
    assert LowerWord("computer") && LowerWord("science");
    assert Capitalized("computer") + " " + Capitalized("science") == "Computer Science";
    assert "computer" + "-" + "science" == "computer-science";
    HyphenatedPairLabel("computer", "science");
  }

  /** `request.student?.user?.fullName`. */
  function StudentName(r: BonafideRequest): Option<string>
  {
    if r.student.Some? && r.student.value.user.Some? then Some(r.student.value.user.value.fullName) else None
  }

  /** `request.student?.rollNo`, and likewise for department and course. */
  function StudentRollNo(r: BonafideRequest): Option<string>
  {
    if r.student.Some? then Some(r.student.value.rollNo) else None
  }

  function StudentDepartment(r: BonafideRequest): Option<string>
  {
    if r.student.Some? then Some(r.student.value.department) else None
  }

  function StudentCourse(r: BonafideRequest): Option<string>
  {
    if r.student.Some? then Some(r.student.value.course) else None
  }

  /** The variable parts of a rendered certificate. */
  datatype CertificateText = CertificateText(
    logo: Option<string>,
    collegeName: string,
    collegeAddress: string,
    studentName: string,
    rollNo: string,
    department: string,
    course: string,
    academicYear: string,
    year: string,
    purpose: string)

  /** The certificate for a request issued by a college. */
  function Render(r: BonafideRequest, college: College): (t: CertificateText)
    ensures t.logo.Some? <==> college.logo.Some? && college.logo.value != ""
    ensures t.logo.Some? ==> t.logo == college.logo
    ensures r.student.None? ==>
      t.studentName == "N/A" && t.rollNo == "N/A" && t.department == "N/A" && t.course == "N/A"
    ensures t.studentName != "" && t.rollNo != "" && t.department != "" && t.course != "" && t.purpose != ""
    ensures t.academicYear == r.academicYear && t.year == r.year
    ensures t.collegeName == college.name && t.collegeAddress == college.address
    // a name or roll number that is missing or empty reads N/A; otherwise it is printed as stored
    ensures t.studentName == (if StudentName(r).Some? && StudentName(r).value != "" then StudentName(r).value else "N/A")
    ensures t.rollNo == (if StudentRollNo(r).Some? && StudentRollNo(r).value != "" then StudentRollNo(r).value else "N/A")
    // department, course and purpose go through the label formatter
    ensures t.department == FormatLabel(StudentDepartment(r)) && t.course == FormatLabel(StudentCourse(r))
    ensures t.purpose == FormatLabel(Some(r.purpose))
  {
    CertificateText(
      if college.logo.Some? && college.logo.value != "" then college.logo else None,
      college.name,
      college.address,
      OrElse(StudentName(r), "N/A"),
      OrElse(StudentRollNo(r), "N/A"),
      FormatLabel(StudentDepartment(r)),
      FormatLabel(StudentCourse(r)),
      r.academicYear,
      r.year,
      FormatLabel(Some(r.purpose)))
  }

  /** A certificate download: stopped for want of a college, or the certificate and its file name. */
  datatype PdfOutcome =
    | MissingCollege
    | Produced(college: College, text: CertificateText, fileName: string)
}
