/**
  The request ledger: the ordered list of certificate requests, newest
  first, with submission, the approve/reject transition and the two reads.
  Fresh ids and clock readings are passed in.
 */
module Requests {
  import opened Types
  import opened Collections

  /** The fields of a request that its submitter supplies (all but `id`, `requestDate`, `status`). */
  function DraftOf(r: BonafideRequest): RequestDraft
  {
    RequestDraft(r.studentId, r.purpose, r.academicYear, r.year, r.contactInfo,
                 r.certificatePath, r.processedDate, r.processedBy, r.student)
  }

  /** The request `submitRequest` builds from a draft, a fresh id and the current time. */
  function Submit(d: RequestDraft, id: string, now: string): (r: BonafideRequest)
    ensures r.id == id && r.requestDate == now && r.status == Pending
    ensures DraftOf(r) == d
  {
    BonafideRequest(id, d.studentId, d.purpose, d.academicYear, d.year, d.contactInfo,
                    Pending, d.certificatePath, now, d.processedDate, d.processedBy, d.student)
  }

  /** Where the certificate of an approved request is filed. */
  function CertificatePath(requestId: string): string
  {
    "certificates/" + requestId + ".pdf"
  }

  /** One request after the decision `status` taken by `actor` at time `now`. */
  function Process(r: BonafideRequest, requestId: string, status: Decision, actor: string, now: string): (p: BonafideRequest)
    ensures p.status == status && p.processedBy == Some(actor) && p.processedDate == Some(now)
    ensures p.certificatePath.Some? <==> status == Approved
    ensures status == Approved ==> p.certificatePath == Some(CertificatePath(requestId))
    // nothing but the four decision fields changes
    ensures p.(status := r.status, certificatePath := r.certificatePath,
               processedDate := r.processedDate, processedBy := r.processedBy) == r
  {
    r.(status := status,
       processedDate := Some(now),
       processedBy := Some(actor),
       certificatePath := if status == Approved then Some(CertificatePath(requestId)) else None)
  }

  /** The ledger after `updateRequestStatus`: the request(s) with `requestId` processed, the rest untouched. */
  function UpdateAll(rs: seq<BonafideRequest>, requestId: string, status: Decision, actor: string, now: string)
    : (u: seq<BonafideRequest>)
    ensures |u| == |rs|
    ensures forall i :: 0 <= i < |rs| ==>
      u[i] == if rs[i].id == requestId then Process(rs[i], requestId, status, actor, now) else rs[i]
    ensures (forall i :: 0 <= i < |rs| ==> rs[i].id != requestId) ==> u == rs
    decreases |rs|
  {
    if |rs| == 0 then []
    else
      [if rs[0].id == requestId then Process(rs[0], requestId, status, actor, now) else rs[0]]
      + UpdateAll(rs[1..], requestId, status, actor, now)
  }

  /** The test `getRequestsByStudent` filters with. */
  function OfStudent(studentId: string): BonafideRequest -> bool
  {
    (r: BonafideRequest) => r.studentId == studentId
  }

  /** The requests of one student, in ledger order. */
  function ByStudent(rs: seq<BonafideRequest>, studentId: string): (r: seq<BonafideRequest>)
    ensures forall x :: x in r <==> x in rs && x.studentId == studentId
  {
    Filter(rs, OfStudent(studentId))
  }

  /** A student's requests are a subsequence of the ledger: same order, and every one of them is there. */
  lemma ByStudentIsSubsequence(rs: seq<BonafideRequest>, studentId: string)
    ensures var idx := Matching(rs, OfStudent(studentId), 0);
      && |idx| == |ByStudent(rs, studentId)|
      && (forall k :: 0 <= k < |idx| ==> idx[k] < |rs| && ByStudent(rs, studentId)[k] == rs[idx[k]])
      && (forall k, l :: 0 <= k < l < |idx| ==> idx[k] < idx[l])
      && (forall i :: 0 <= i < |rs| ==> (i in idx <==> rs[i].studentId == studentId))
  {
    FilterIsSubsequence(rs, OfStudent(studentId), 0);
    assert rs[0..] == rs;
  }

  /** A new request shows up first in its student's list and nowhere else. */
  lemma SubmitThenByStudent(rs: seq<BonafideRequest>, d: RequestDraft, id: string, now: string, studentId: string)
    ensures ByStudent([Submit(d, id, now)] + rs, studentId)
         == (if d.studentId == studentId then [Submit(d, id, now)] else []) + ByStudent(rs, studentId)
  {
    assert ([Submit(d, id, now)] + rs)[1..] == rs;
  }

  /**
    There is no pending-only guard: a second decision on the same request
    overwrites the first one completely.
   */
  lemma ReprocessOverwrites(rs: seq<BonafideRequest>, requestId: string,
                            s1: Decision, actor1: string, t1: string,
                            s2: Decision, actor2: string, t2: string)
    ensures UpdateAll(UpdateAll(rs, requestId, s1, actor1, t1), requestId, s2, actor2, t2)
         == UpdateAll(rs, requestId, s2, actor2, t2)
  {
    var once := UpdateAll(rs, requestId, s1, actor1, t1);
    var twice := UpdateAll(once, requestId, s2, actor2, t2);
    var direct := UpdateAll(rs, requestId, s2, actor2, t2);
    forall i | 0 <= i < |rs| ensures twice[i] == direct[i] {
      assert once[i].id == rs[i].id;
    }
  }

  /**
    A request is settled when `processedDate` and `processedBy` are set
    exactly when it is no longer pending and `certificatePath` exactly when
    it is approved.
   */
  predicate Settled(r: BonafideRequest)
  {
    && (r.status.Pending? <==> r.processedDate.None?)
    && (r.status.Pending? <==> r.processedBy.None?)
    && (r.certificatePath.Some? <==> r.status.Approved?)
  }

  /** A draft that carries none of the three decision fields. */
  predicate Blank(d: RequestDraft)
  {
    d.certificatePath.None? && d.processedDate.None? && d.processedBy.None?
  }

  /**
    The draft's fields are spread into the new request, so a new request is
    settled exactly when its draft is blank.
   */
  lemma SubmitSettledIffBlank(d: RequestDraft, id: string, now: string)
    ensures Settled(Submit(d, id, now)) <==> Blank(d)
  {
  }

  /** Every decision, on any request, leaves a settled request. */
  lemma UpdateAllSettles(rs: seq<BonafideRequest>, requestId: string, status: Decision, actor: string, now: string)
    ensures forall i :: 0 <= i < |rs| && rs[i].id == requestId ==>
      Settled(UpdateAll(rs, requestId, status, actor, now)[i])
    ensures (forall r <- rs :: Settled(r)) ==> forall r <- UpdateAll(rs, requestId, status, actor, now) :: Settled(r)
  {
    var u := UpdateAll(rs, requestId, status, actor, now);
    if forall r <- rs :: Settled(r) {
      forall r | r in u ensures Settled(r) {
        var i :| 0 <= i < |u| && u[i] == r;
        assert rs[i] in rs;
      }
    }
  }

  /** The test the dashboards filter and count with: `r.status === s`. */
  function HasStatus(s: Status): BonafideRequest -> bool
  {
    (r: BonafideRequest) => r.status == s
  }

  /** `rs.filter(r => r.status === s).length`. */
  function CountStatus(rs: seq<BonafideRequest>, s: Status): (n: nat)
    ensures n <= |rs|
    ensures n == 0 <==> forall r <- rs :: r.status != s
  {
    var f := Filter(rs, HasStatus(s));
    assert |f| > 0 ==> f[0] in f;
    |f|
  }

  /** Every request has exactly one of the three statuses, so the three counts add up to the total. */
  lemma {:induction false} StatusCountsPartition(rs: seq<BonafideRequest>)
    ensures CountStatus(rs, Pending) + CountStatus(rs, Approved) + CountStatus(rs, Rejected) == |rs|
    decreases |rs|
  {
    if |rs| > 0 {
      StatusCountsPartition(rs[1..]);
    }
  }

  /** Request ids are pairwise distinct. */
  predicate DistinctIds(rs: seq<BonafideRequest>)
  {
    forall i, j :: 0 <= i < j < |rs| ==> rs[i].id != rs[j].id
  }

  /** With distinct ids, deciding request `i` replaces that one request and keeps the rest in place. */
  lemma UpdateOne(rs: seq<BonafideRequest>, i: nat, status: Decision, actor: string, now: string)
    requires DistinctIds(rs) && i < |rs|
    ensures UpdateAll(rs, rs[i].id, status, actor, now)
         == rs[..i] + [Process(rs[i], rs[i].id, status, actor, now)] + rs[i + 1..]
  {
    var id := rs[i].id;
    var u := UpdateAll(rs, id, status, actor, now);
    var v := rs[..i] + [Process(rs[i], id, status, actor, now)] + rs[i + 1..];
    forall j | 0 <= j < |rs| ensures u[j] == v[j] {
      if j < i {
        assert rs[j].id != id && v[j] == rs[j];
      } else if j > i {
        assert rs[j].id != id && v[j] == rs[j];
      }
    }
  }

  /**
    Deciding one request moves it from the count of its old status to the
    count of the new one; every other count stays.
   */
  lemma DecisionMovesOneCount(rs: seq<BonafideRequest>, i: nat, status: Decision,
                              actor: string, now: string, s: Status)
    requires DistinctIds(rs) && i < |rs|
    ensures CountStatus(UpdateAll(rs, rs[i].id, status, actor, now), s) + (if rs[i].status == s then 1 else 0)
         == CountStatus(rs, s) + (if status == s then 1 else 0)
  {
    var p := Process(rs[i], rs[i].id, status, actor, now);
    UpdateOne(rs, i, status, actor, now);
    assert rs == rs[..i] + [rs[i]] + rs[i + 1..];
    FilterAppend(rs[..i] + [p], rs[i + 1..], HasStatus(s));
    FilterAppend(rs[..i], [p], HasStatus(s));
    FilterAppend(rs[..i] + [rs[i]], rs[i + 1..], HasStatus(s));
    FilterAppend(rs[..i], [rs[i]], HasStatus(s));
    assert |Filter([p], HasStatus(s))| == (if status == s then 1 else 0);
    assert |Filter([rs[i]], HasStatus(s))| == (if rs[i].status == s then 1 else 0);
  }

  /** The ledger held by the requests provider. */
  class Ledger {
    var requests: seq<BonafideRequest>

    /** Every request id is a fresh uuid, so ids never repeat. */
    predicate Valid()
      reads this
    {
      DistinctIds(requests)
    }

    constructor ()
      ensures Valid() && requests == []
    {
      requests := [];
    }

    /** `submitRequest`: prepend a pending request built from the draft. */
    method SubmitRequest(draft: RequestDraft, id: string, now: string)
      requires Valid()
      requires forall r <- requests :: r.id != id
      modifies this
      ensures Valid()
      ensures requests == [Submit(draft, id, now)] + old(requests)
      ensures |requests| == |old(requests)| + 1 && requests[1..] == old(requests)
    {
      requests := [Submit(draft, id, now)] + requests;
      assert requests[1..] == old(requests);
      forall i, j | 0 <= i < j < |requests| ensures requests[i].id != requests[j].id {
        if i == 0 {
          assert requests[j] == old(requests)[j - 1];
          assert old(requests)[j - 1] in old(requests);
        }
      }
    }

    /** `updateRequestStatus`: record the decision on the request with `requestId`, if any. */
    method UpdateRequestStatus(requestId: string, status: Decision, processedBy: string, now: string)
      requires Valid()
      modifies this
      ensures Valid()
      ensures requests == UpdateAll(old(requests), requestId, status, processedBy, now)
      ensures |requests| == |old(requests)|
      ensures forall i :: 0 <= i < |requests| ==> requests[i].id == old(requests)[i].id
      ensures forall i :: 0 <= i < |requests| && old(requests)[i].id != requestId ==> requests[i] == old(requests)[i]
      ensures (forall r <- old(requests) :: r.id != requestId) ==> requests == old(requests)
    {
      requests := UpdateAll(requests, requestId, status, processedBy, now);
      forall i | 0 <= i < |requests| ensures requests[i].id == old(requests)[i].id {
      }
      if forall r <- old(requests) :: r.id != requestId {
        forall i | 0 <= i < |old(requests)| ensures old(requests)[i].id != requestId {
          assert old(requests)[i] in old(requests);
        }
      }
    }

    /** `getRequestsByStudent`: exactly the student's requests, in ledger order. */
    function GetRequestsByStudent(studentId: string): (r: seq<BonafideRequest>)
      reads this
      ensures forall x :: x in r <==> x in requests && x.studentId == studentId
      ensures r == ByStudent(requests, studentId)
    {
      ByStudent(requests, studentId)
    }

    /** `getAllRequests`: the whole ledger, unscoped. */
    function GetAllRequests(): (r: seq<BonafideRequest>)
      reads this
      ensures r == requests
    {
      requests
    }
  }

  /** Submit a request and approve it: the walk-through of the ledger's life cycle. */
  method ApprovalScenario(student: Student, id: string, now: string, later: string)
  {
    var ledger := new Ledger();
    var draft := RequestDraft(student.id, "passport", "2024-2025", "3rd", "", None, None, None, Some(student));
    ledger.SubmitRequest(draft, id, now);
    assert |ledger.requests| == 1 && ledger.requests[0].status == Pending;
    ledger.UpdateRequestStatus(id, Approved, "Dr. Reed", later);
    assert ledger.requests[0].status == Approved;
    assert ledger.requests[0].processedBy == Some("Dr. Reed");
    assert ledger.requests[0].certificatePath == Some("certificates/" + id + ".pdf");
  }
}
