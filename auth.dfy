/**
  The identity store and the session: four in-memory tables (accounts,
  colleges, student profiles, admin profiles) seeded with one college and
  its administrator, the authentication state, and the browser-storage
  slot `currentUser` that keeps the signed-in user across reloads.
 */
module Auth {
  import opened Types
  import opened Collections

  /** What the signup form submits: its fields, the chosen role and the logo URL. */
  datatype SignupData = SignupData(
    fullName: string,
    email: string,
    password: string,
    role: Role,
    rollNo: string,
    department: string,
    course: string,
    collegeId: string,
    collegeName: string,
    collegeAddress: string,
    collegeLogo: string)

  // The tests the lookups use.

  function HasEmail(email: string): UserWithPassword -> bool
  {
    (u: UserWithPassword) => u.email == email
  }

  function CollegeWithId(id: string): College -> bool
  {
    (c: College) => c.id == id
  }

  function AdminOfUser(userId: string): Admin -> bool
  {
    (a: Admin) => a.userId == userId
  }

  function StudentOfUser(userId: string): Student -> bool
  {
    (s: Student) => s.userId == userId
  }

  // The seed data present when the application loads.

  function SeedAdminUser(now: string): UserWithPassword
  {
    UserWithPassword("admin-user-1", "Dr. Evelyn Reed", "admin@greenwood.edu", AdminRole, now, "password123")
  }

  const SeedLogo := "https://img-wrapper.vercel.app/image?url=https://placehold.co/200x200/3498db/ffffff?text=GU"
  const SeedAddress := "123 University Avenue, Knowledge City, 12345"

  function SeedCollege(now: string): College
  {
    College("college-1", "Greenwood University", Some(SeedLogo), SeedAddress, "admin-user-1", now)
  }

  function SeedAdmin(now: string): Admin
  {
    Admin("admin-1", "admin-user-1", "college-1", Some(SeedAdminUser(now).Public()), Some(SeedCollege(now)))
  }

  // The records a signup creates.

  function NewAccount(data: SignupData, userId: string, now: string): UserWithPassword
  {
    UserWithPassword(userId, data.fullName, data.email, data.role, now, data.password)
  }

  function NewCollege(data: SignupData, collegeId: string, userId: string, now: string): College
  {
    College(collegeId, data.collegeName, Some(data.collegeLogo), data.collegeAddress, userId, now)
  }

  /** `i` is the position of the first account registered with `email`. */
  predicate FirstWithEmail(users: seq<UserWithPassword>, email: string, i: int)
  {
    0 <= i < |users| && users[i].email == email && forall j :: 0 <= j < i ==> users[j].email != email
  }

  /**
    `login`'s decision: the first account with the email, provided its
    password is exactly the one given, without its password.
   */
  function Authenticate(users: seq<UserWithPassword>, email: string, password: string): (r: Option<User>)
    ensures r.Some? <==> exists i :: FirstWithEmail(users, email, i) && users[i].password == password
    ensures r.Some? ==> exists i :: FirstWithEmail(users, email, i) && r.value == users[i].Public()
  {
    match FirstIndex(users, HasEmail(email))
    case None => None
    case Some(k) => if users[k].password == password then Some(users[k].Public()) else None
  }

  /** No two accounts share an email address. */
  predicate EmailsUnique(users: seq<UserWithPassword>)
  {
    forall i, j :: 0 <= i < |users| && 0 <= j < |users| && users[i].email == users[j].email ==> i == j
  }

  /** With unique emails, login succeeds exactly for a registered (email, password) pair. */
  lemma AuthenticateExact(users: seq<UserWithPassword>, email: string, password: string)
    requires EmailsUnique(users)
    ensures Authenticate(users, email, password).Some?
        <==> exists i :: 0 <= i < |users| && users[i].email == email && users[i].password == password
  {
    if exists i :: 0 <= i < |users| && users[i].email == email && users[i].password == password {
      var i :| 0 <= i < |users| && users[i].email == email && users[i].password == password;
      assert FirstWithEmail(users, email, i);
    }
  }

  /** After a signup with an unused email, logging in with the same credentials succeeds. */
  lemma SignupThenLogin(users: seq<UserWithPassword>, account: UserWithPassword)
    requires forall u <- users :: u.email != account.email
    ensures Authenticate(users + [account], account.email, account.password) == Some(account.Public())
  {
    var all := users + [account];
    assert all[|users|] == account;
    forall j | 0 <= j < |users| ensures all[j].email != account.email {
      assert all[j] == users[j];
      assert users[j] in users;
    }
    assert FirstWithEmail(all, account.email, |users|);
  }

  /** No two accounts share an id. */
  predicate UserIdsUnique(users: seq<UserWithPassword>)
  {
    forall i, j :: 0 <= i < |users| && 0 <= j < |users| && users[i].id == users[j].id ==> i == j
  }

  /** No two different colleges share an id. */
  predicate CollegeIdsUnique(colleges: seq<College>)
  {
    forall c1, c2 :: c1 in colleges && c2 in colleges && c1.id == c2.id ==> c1 == c2
  }

  /**
    The links between the tables: every admin profile belongs to an admin
    account and owns a college whose `adminId` is that account; every
    student profile belongs to an account; every college's owner is an
    account; a profile's denormalised college, when present, is the table
    entry with the profile's `collegeId`.
   */
  predicate Linked(users: seq<UserWithPassword>, colleges: seq<College>, students: seq<Student>, admins: seq<Admin>)
  {
    && (forall a <- admins :: exists u <- users :: u.id == a.userId && u.role == AdminRole)
    && (forall a <- admins :: exists c <- colleges :: c.id == a.collegeId && c.adminId == a.userId)
    && (forall a <- admins :: a.college.Some? ==> a.college.value in colleges && a.college.value.id == a.collegeId)
    && (forall s <- students :: exists u <- users :: u.id == s.userId)
    && (forall s <- students :: s.college.Some? ==> s.college.value in colleges && s.college.value.id == s.collegeId)
    && (forall c <- colleges :: exists u <- users :: u.id == c.adminId)
  }

  /** An admin profile with its missing college filled in by lookup. */
  function AdminWithCollege(a: Admin, colleges: seq<College>): Admin
  {
    if a.college.None? then a.(college := Find(colleges, CollegeWithId(a.collegeId))) else a
  }

  /** A student profile with its missing college filled in by lookup. */
  function StudentWithCollege(s: Student, colleges: seq<College>): Student
  {
    if s.college.None? then s.(college := Find(colleges, CollegeWithId(s.collegeId))) else s
  }

  /**
    In a linked store the college of an administrator's profile, once
    filled in, is the college that administrator owns.
   */
  lemma AdminCollegeIsOwned(users: seq<UserWithPassword>, colleges: seq<College>, students: seq<Student>,
                            admins: seq<Admin>, a: Admin)
    requires Linked(users, colleges, students, admins) && CollegeIdsUnique(colleges)
    requires a in admins
    ensures AdminWithCollege(a, colleges).college.Some?
    ensures AdminWithCollege(a, colleges).college.value.adminId == a.userId
  {
    var c :| c in colleges && c.id == a.collegeId && c.adminId == a.userId;
    var filled := AdminWithCollege(a, colleges);
    assert filled.college.Some? && filled.college.value in colleges && filled.college.value.id == a.collegeId;
  }

  /** Appending an account with an unused email and id keeps emails and ids unique. */
  lemma AppendAccountKeepsUnique(users: seq<UserWithPassword>, account: UserWithPassword)
    requires EmailsUnique(users) && UserIdsUnique(users)
    requires forall u <- users :: u.email != account.email && u.id != account.id
    ensures EmailsUnique(users + [account]) && UserIdsUnique(users + [account])
  {
    var all := users + [account];
    forall i | 0 <= i < |users| ensures all[i] == users[i] && all[i] in users {
    }
  }

  /** Appending a college with an unused id keeps college ids unique. */
  lemma AppendCollegeKeepsUnique(colleges: seq<College>, college: College)
    requires CollegeIdsUnique(colleges)
    requires forall c <- colleges :: c.id != college.id
    ensures CollegeIdsUnique(colleges + [college])
  {
  }

  /** A student signup keeps the tables linked. */
  lemma StudentSignupKeepsLinked(users: seq<UserWithPassword>, colleges: seq<College>, students: seq<Student>,
                                 admins: seq<Admin>, account: UserWithPassword, student: Student)
    requires Linked(users, colleges, students, admins)
    requires student.userId == account.id
    requires student.college.Some? ==> student.college.value in colleges && student.college.value.id == student.collegeId
    ensures Linked(users + [account], colleges, students + [student], admins)
  {
    assert forall u <- users :: u in users + [account];
    assert account in users + [account];
  }

  /** An admin signup keeps the tables linked. */
  lemma AdminSignupKeepsLinked(users: seq<UserWithPassword>, colleges: seq<College>, students: seq<Student>,
                               admins: seq<Admin>, account: UserWithPassword, college: College, admin: Admin)
    requires Linked(users, colleges, students, admins)
    requires account.role == AdminRole && college.adminId == account.id
    requires admin.userId == account.id && admin.collegeId == college.id && admin.college == Some(college)
    ensures Linked(users + [account], colleges + [college], students, admins + [admin])
  {
    assert forall u <- users :: u in users + [account];
    assert forall c <- colleges :: c in colleges + [college];
    assert account in users + [account];
    assert college in colleges + [college];
  }

  /** Filling in an admin profile's college keeps the tables linked. */
  lemma FillAdminKeepsLinked(users: seq<UserWithPassword>, colleges: seq<College>, students: seq<Student>,
                             admins: seq<Admin>, k: nat)
    requires Linked(users, colleges, students, admins)
    requires k < |admins|
    ensures Linked(users, colleges, students, admins[k := AdminWithCollege(admins[k], colleges)])
  {
    var filled := AdminWithCollege(admins[k], colleges);
    var updated := admins[k := filled];
    assert admins[k] in admins;
    forall b | b in updated ensures b in admins || b == filled {
      var i :| 0 <= i < |updated| && updated[i] == b;
      if i != k {
        assert admins[i] in admins;
      }
    }
  }

  /** Filling in a student profile's college keeps the tables linked. */
  lemma FillStudentKeepsLinked(users: seq<UserWithPassword>, colleges: seq<College>, students: seq<Student>,
                               admins: seq<Admin>, k: nat)
    requires Linked(users, colleges, students, admins)
    requires k < |students|
    ensures Linked(users, colleges, students[k := StudentWithCollege(students[k], colleges)], admins)
  {
    var filled := StudentWithCollege(students[k], colleges);
    var updated := students[k := filled];
    assert students[k] in students;
    forall t | t in updated ensures t in students || t == filled {
      var i :| 0 <= i < |updated| && updated[i] == t;
      if i != k {
        assert students[i] in students;
      }
    }
  }

  /** The invariant of the identity store: unique emails and ids, and linked tables. */
  predicate Consistent(users: seq<UserWithPassword>, colleges: seq<College>, students: seq<Student>, admins: seq<Admin>)
  {
    && EmailsUnique(users)
    && UserIdsUnique(users)
    && CollegeIdsUnique(colleges)
    && Linked(users, colleges, students, admins)
  }

  /** An admin signup with an unused email and fresh ids keeps the store consistent. */
  lemma AdminSignupKeepsConsistent(users: seq<UserWithPassword>, colleges: seq<College>, students: seq<Student>,
                                   admins: seq<Admin>, account: UserWithPassword, college: College, admin: Admin)
    requires Consistent(users, colleges, students, admins)
    requires forall u <- users :: u.email != account.email && u.id != account.id
    requires forall c <- colleges :: c.id != college.id
    requires account.role == AdminRole && college.adminId == account.id
    requires admin.userId == account.id && admin.collegeId == college.id && admin.college == Some(college)
    ensures Consistent(users + [account], colleges + [college], students, admins + [admin])
  {
    AppendAccountKeepsUnique(users, account);
    AppendCollegeKeepsUnique(colleges, college);
    AdminSignupKeepsLinked(users, colleges, students, admins, account, college, admin);
  }

  /** A student signup with an unused email and a fresh id keeps the store consistent. */
  lemma StudentSignupKeepsConsistent(users: seq<UserWithPassword>, colleges: seq<College>, students: seq<Student>,
                                     admins: seq<Admin>, account: UserWithPassword, student: Student)
    requires Consistent(users, colleges, students, admins)
    requires forall u <- users :: u.email != account.email && u.id != account.id
    requires student.userId == account.id
    requires student.college.Some? ==> student.college.value in colleges && student.college.value.id == student.collegeId
    ensures Consistent(users + [account], colleges, students + [student], admins)
  {
    AppendAccountKeepsUnique(users, account);
    StudentSignupKeepsLinked(users, colleges, students, admins, account, student);
  }

  /** The seeded tables are consistent: one admin account owning the one college. */
  lemma SeedsConsistent(now: string)
    ensures Consistent([SeedAdminUser(now)], [SeedCollege(now)], [], [SeedAdmin(now)])
  {
    var u, c, a := SeedAdminUser(now), SeedCollege(now), SeedAdmin(now);
    assert u in [u] && c in [c];
    assert forall x <- [a] :: x == a;
    assert forall x <- [c] :: x == c;
  }

  /** The identity store, the session and the browser-storage slot. */
  class AuthStore {
    var users: seq<UserWithPassword>
    var colleges: seq<College>
    var students: seq<Student>
    var admins: seq<Admin>
    var state: AuthState
    /** The `currentUser` entry of browser storage. */
    var stored: Option<User>

    predicate Valid()
      reads this
    {
      Consistent(users, colleges, students, admins)
    }

    /** Page load: the seeded tables, an unauthenticated session still loading, and whatever storage holds. */
    constructor (slot: Option<User>, now: string)
      ensures Valid()
      ensures users == [SeedAdminUser(now)] && colleges == [SeedCollege(now)]
      ensures students == [] && admins == [SeedAdmin(now)]
      ensures state == AuthState(None, false, true) && stored == slot
    {
      SeedsConsistent(now);
      users := [SeedAdminUser(now)];
      colleges := [SeedCollege(now)];
      students := [];
      admins := [SeedAdmin(now)];
      state := AuthState(None, false, true);
      stored := slot;
    }

    /** The startup effect: resume the stored session if there is one; stop loading either way. */
    method Restore()
      modifies this
      ensures stored.Some? ==> state == AuthState(stored, true, false)
      ensures stored.None? ==> state == old(state).(loading := false)
      ensures !state.loading
      ensures stored == old(stored)
      ensures users == old(users) && colleges == old(colleges) && students == old(students) && admins == old(admins)
    {
      if stored.Some? {
        state := AuthState(stored, true, false);
      } else {
        state := state.(loading := false);
      }
    }

    /** `login`: compare the email, then the password, of the first matching account. */
    method Login(email: string, password: string) returns (ok: bool)
      modifies this
      ensures ok == Authenticate(old(users), email, password).Some?
      ensures ok ==> state == AuthState(Authenticate(old(users), email, password), true, false)
      ensures ok ==> stored == Authenticate(old(users), email, password)
      ensures !ok ==> state == old(state) && stored == old(stored)
      ensures users == old(users) && colleges == old(colleges) && students == old(students) && admins == old(admins)
    {
      var k := Scan(users, HasEmail(email));
      if k.Some? && users[k.value].password == password {
        var user := users[k.value].Public();
        state := AuthState(Some(user), true, false);
        stored := Some(user);
        ok := true;
      } else {
        ok := false;
      }
    }

    /**
      `signup`: refuse an email already registered; otherwise append the
      account, then either a college and an admin profile (role admin) or
      a student profile (any other role), and sign the new user in.
     */
    method Signup(data: SignupData, userId: string, collegeId: string, profileId: string, now: string)
      returns (ok: bool)
      requires Valid()
      requires forall u <- users :: u.id != userId
      requires forall c <- colleges :: c.id != collegeId
      requires forall a <- admins :: a.id != profileId
      requires forall s <- students :: s.id != profileId
      modifies this
      ensures Valid()
      ensures ok <==> forall u <- old(users) :: u.email != data.email
      ensures !ok ==> (&& users == old(users) && colleges == old(colleges) && students == old(students)
                       && admins == old(admins) && state == old(state) && stored == old(stored))
      ensures ok ==> users == old(users) + [NewAccount(data, userId, now)]
      ensures ok ==> state == AuthState(Some(NewAccount(data, userId, now).Public()), true, false)
      ensures ok ==> stored == Some(NewAccount(data, userId, now).Public())
      ensures ok ==> Authenticate(users, data.email, data.password) == stored
      ensures ok && data.role == AdminRole ==>
        && colleges == old(colleges) + [NewCollege(data, collegeId, userId, now)]
        && admins == old(admins) + [Admin(profileId, userId, collegeId, stored, Some(NewCollege(data, collegeId, userId, now)))]
        && students == old(students)
      ensures ok && data.role != AdminRole ==>
        && students == old(students) + [Student(profileId, userId, data.rollNo, data.department, data.course,
                                                data.collegeId, stored, Find(old(colleges), CollegeWithId(data.collegeId)))]
        && colleges == old(colleges) && admins == old(admins)
    {
      var duplicate := Scan(users, HasEmail(data.email));
      if duplicate.Some? {
        assert users[duplicate.value] in users;
        return false;
      }
      var account := NewAccount(data, userId, now);
      SignupThenLogin(users, account);
      if data.role == AdminRole {
        AddAdminAccount(data, userId, collegeId, profileId, now);
      } else {
        AddStudentAccount(data, userId, profileId, now);
      }
      state, stored := AuthState(Some(account.Public()), true, false), Some(account.Public());
      ok := true;
    }

    /** The admin branch of `signup`: the account, the new college and the admin profile. */
    method AddAdminAccount(data: SignupData, userId: string, collegeId: string, profileId: string, now: string)
      requires Valid() && data.role == AdminRole
      requires forall u <- users :: u.email != data.email && u.id != userId
      requires forall c <- colleges :: c.id != collegeId
      modifies this
      ensures Valid()
      ensures users == old(users) + [NewAccount(data, userId, now)]
      ensures colleges == old(colleges) + [NewCollege(data, collegeId, userId, now)]
      ensures admins == old(admins) + [Admin(profileId, userId, collegeId, Some(NewAccount(data, userId, now).Public()),
                                             Some(NewCollege(data, collegeId, userId, now)))]
      ensures students == old(students) && state == old(state) && stored == old(stored)
    {
      var account := NewAccount(data, userId, now);
      var college := NewCollege(data, collegeId, userId, now);
      var admin := Admin(profileId, userId, collegeId, Some(account.Public()), Some(college));
      AdminSignupKeepsConsistent(users, colleges, students, admins, account, college, admin);
      users, colleges, admins := users + [account], colleges + [college], admins + [admin];
    }

    /** The student branch of `signup`: the account and a student profile whose college is looked up. */
    method AddStudentAccount(data: SignupData, userId: string, profileId: string, now: string)
      requires Valid()
      requires forall u <- users :: u.email != data.email && u.id != userId
      modifies this
      ensures Valid()
      ensures users == old(users) + [NewAccount(data, userId, now)]
      ensures students == old(students) + [Student(profileId, userId, data.rollNo, data.department, data.course,
                                                   data.collegeId, Some(NewAccount(data, userId, now).Public()),
                                                   Find(old(colleges), CollegeWithId(data.collegeId)))]
      ensures colleges == old(colleges) && admins == old(admins) && state == old(state) && stored == old(stored)
    {
      var account := NewAccount(data, userId, now);
      var college := FindFirst(colleges, CollegeWithId(data.collegeId));
      var student := Student(profileId, userId, data.rollNo, data.department, data.course,
                             data.collegeId, Some(account.Public()), college);
      StudentSignupKeepsConsistent(users, colleges, students, admins, account, student);
      users, students := users + [account], students + [student];
    }

    /** `logout`: end the session and clear the storage slot. */
    method Logout()
      modifies this
      ensures state == AuthState(None, false, false) && stored == None
      ensures users == old(users) && colleges == old(colleges) && students == old(students) && admins == old(admins)
    {
      state := AuthState(None, false, false);
      stored := None;
    }

    /**
      `getCurrentUserProfile`: the first admin profile (role admin) or
      student profile (any other role) of the session user, its missing
      college filled in, in the table too, by lookup.
     */
    method GetCurrentUserProfile() returns (p: Option<Profile>)
      requires Valid()
      modifies this
      ensures Valid()
      ensures users == old(users) && colleges == old(colleges) && state == old(state) && stored == old(stored)
      ensures state.user.None? ==> p.None? && students == old(students) && admins == old(admins)
      ensures state.user.Some? && state.user.value.role == AdminRole ==>
        && students == old(students)
        && match FirstIndex(old(admins), AdminOfUser(state.user.value.id))
           case None => p.None? && admins == old(admins)
           case Some(k) =>
             && admins == old(admins)[k := AdminWithCollege(old(admins)[k], colleges)]
             && p == Some(AdminProfile(admins[k]))
      ensures state.user.Some? && state.user.value.role != AdminRole ==>
        && admins == old(admins)
        && match FirstIndex(old(students), StudentOfUser(state.user.value.id))
           case None => p.None? && students == old(students)
           case Some(k) =>
             && students == old(students)[k := StudentWithCollege(old(students)[k], colleges)]
             && p == Some(StudentProfile(students[k]))
      // the linked-record payoff: an administrator's profile names the college that administrator owns
      ensures p.Some? && p.value.AdminProfile? ==>
        && state.user.Some? && p.value.admin.userId == state.user.value.id
        && p.value.admin.college.Some? && p.value.admin.college.value.adminId == state.user.value.id
      ensures p.Some? && p.value.StudentProfile? ==>
        state.user.Some? && state.user.value.role != AdminRole && p.value.student.userId == state.user.value.id
    {
      if state.user.None? {
        return None;
      }
      var uid := state.user.value.id;
      if state.user.value.role == AdminRole {
        p := LoadAdminProfile(uid);
      } else {
        p := LoadStudentProfile(uid);
      }
    }

    /** The admin branch of `getCurrentUserProfile`. */
    method LoadAdminProfile(uid: string) returns (p: Option<Profile>)
      requires Valid()
      modifies this
      ensures Valid()
      ensures users == old(users) && colleges == old(colleges) && state == old(state) && stored == old(stored)
      ensures students == old(students)
      ensures match FirstIndex(old(admins), AdminOfUser(uid))
        case None => p.None? && admins == old(admins)
        case Some(k) =>
          && admins == old(admins)[k := AdminWithCollege(old(admins)[k], colleges)]
          && p == Some(AdminProfile(admins[k]))
      ensures p.Some? ==>
        && p.value.AdminProfile? && p.value.admin.userId == uid
        && p.value.admin.college.Some? && p.value.admin.college.value.adminId == uid
    {
      var k := Scan(admins, AdminOfUser(uid));
      if k.None? {
        return None;
      }
      var a := admins[k.value];
      assert a in admins;
      AdminCollegeIsOwned(users, colleges, students, admins, a);
      FillAdminKeepsLinked(users, colleges, students, admins, k.value);
      var filled := a;
      if a.college.None? {
        var c := FindFirst(colleges, CollegeWithId(a.collegeId));
        filled := a.(college := c);
      }
      admins := admins[k.value := filled];
      p := Some(AdminProfile(filled));
    }

    /** The student branch of `getCurrentUserProfile`. */
    method LoadStudentProfile(uid: string) returns (p: Option<Profile>)
      requires Valid()
      modifies this
      ensures Valid()
      ensures users == old(users) && colleges == old(colleges) && state == old(state) && stored == old(stored)
      ensures admins == old(admins)
      ensures match FirstIndex(old(students), StudentOfUser(uid))
        case None => p.None? && students == old(students)
        case Some(k) =>
          && students == old(students)[k := StudentWithCollege(old(students)[k], colleges)]
          && p == Some(StudentProfile(students[k]))
      ensures p.Some? ==> p.value.StudentProfile? && p.value.student.userId == uid
    {
      var k := Scan(students, StudentOfUser(uid));
      if k.None? {
        return None;
      }
      var s := students[k.value];
      FillStudentKeepsLinked(users, colleges, students, admins, k.value);
      var filled := s;
      if s.college.None? {
        var c := FindFirst(colleges, CollegeWithId(s.collegeId));
        filled := s.(college := c);
      }
      students := students[k.value := filled];
      p := Some(StudentProfile(filled));
    }
  }
}
