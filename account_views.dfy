/** The account handlers: registration with a username taken from the
    email, login by email, and the profile update whose email change looks
    for a free username. */
module AccountViews {
  import opened Common
  import opened Text

  /** A CustomUser row; `password` holds the hash `make_password` made. */
  datatype User = User(
    username: string,
    email: string,
    firstName: string,
    lastName: string,
    phone: Option<string>,
    userType: string,
    picture: Option<string>,
    password: string)

  /** The `user_type` a registration without one gets. */
  const DefaultUserType: string := "Student"

  predicate EmailTaken(users: map<Id, User>, email: string) {
    exists k | k in users :: users[k].email == email
  }

  predicate PhoneTaken(users: map<Id, User>, phone: string) {
    exists k | k in users :: users[k].phone == Some(phone)
  }

  predicate UsernameTaken(users: map<Id, User>, username: string) {
    exists k | k in users :: users[k].username == username
  }

  /** `username` is unique in `AbstractUser`. */
  ghost predicate UsernamesUnique(users: map<Id, User>) {
    forall a, b | a in users && b in users && a != b :: users[a].username != users[b].username
  }

  /** No two users share an email: the handlers refuse a taken email,
      although the schema does not. */
  ghost predicate EmailsUnique(users: map<Id, User>) {
    forall a, b | a in users && b in users && a != b :: users[a].email != users[b].email
  }

  /** No two users share a non-empty phone number: the handlers refuse a
      taken one, although the schema does not. */
  ghost predicate PhonesUnique(users: map<Id, User>) {
    forall a, b | a in users && b in users && a != b && Present(users[a].phone) :: users[a].phone != users[b].phone
  }

  ghost predicate Unique(users: map<Id, User>) {
    UsernamesUnique(users) && EmailsUnique(users) && PhonesUnique(users)
  }

  // ---------------------------------------------------------------------
  // Registration

  /** The checks of `RegisterView.create`, in order: email required (400),
      password required (400), the email already in use (400), a given
      phone number already in use (400); then the create, which the unique
      username index refuses when another user already has the email's
      prefix (500). */
  function RegisterError(users: map<Id, User>, email: Option<string>, password: Option<string>,
                         phone: Option<string>): (e: Option<int>)
    ensures e.None? <==>
              && Present(email) && Present(password) && !EmailTaken(users, email.value)
              && !(Present(phone) && PhoneTaken(users, phone.value))
              && !UsernameTaken(users, BeforeAt(email.value))
    ensures e == Some(StatusServerError) <==>
              && Present(email) && Present(password) && !EmailTaken(users, email.value)
              && !(Present(phone) && PhoneTaken(users, phone.value))
              && UsernameTaken(users, BeforeAt(email.value))
    ensures e.None? || e == Some(StatusBadRequest) || e == Some(StatusServerError)
  {
    if !Present(email) then Some(StatusBadRequest)
    else if !Present(password) then Some(StatusBadRequest)
    else if EmailTaken(users, email.value) then Some(StatusBadRequest)
    else if Present(phone) && PhoneTaken(users, phone.value) then Some(StatusBadRequest)
    else if UsernameTaken(users, BeforeAt(email.value)) then Some(StatusServerError)
    else None
  }

  /** The row a registration creates: the username is the email's text
      before the first '@'; names default to the empty string and the user
      type to "Student". */
  function NewUser(email: string, passwordHash: string, firstName: Option<string>, lastName: Option<string>,
                   phone: Option<string>, userType: Option<string>, picture: Option<string>): (r: User)
    ensures r.username == BeforeAt(email) && r.username <= email && '@' !in r.username
    ensures r.email == email && r.password == passwordHash
    ensures firstName.Some? ==> r.firstName == firstName.value
    ensures firstName.None? ==> r.firstName == ""
    ensures lastName.Some? ==> r.lastName == lastName.value
    ensures lastName.None? ==> r.lastName == ""
    ensures userType.Some? ==> r.userType == userType.value
    ensures userType.None? ==> r.userType == DefaultUserType
    ensures r.phone == phone && r.picture == picture
  {
    User(BeforeAt(email), email, OrElse(firstName, ""), OrElse(lastName, ""), phone,
         OrElse(userType, DefaultUserType), picture, passwordHash)
  }

  /** A user created after the checks of RegisterError passed keeps every
      uniqueness rule. */
  lemma UserAdded(users: map<Id, User>, k: Id, row: User)
    requires Unique(users) && k !in users
    requires !EmailTaken(users, row.email) && !UsernameTaken(users, row.username)
    requires !(Present(row.phone) && PhoneTaken(users, row.phone.value))
    ensures Unique(users[k := row])
  {
    var m := users[k := row];
    forall a, b | a in m && b in m && a != b && Present(m[a].phone) ensures m[a].phone != m[b].phone {
      if a == k {
        assert !(b in users && users[b].phone == Some(row.phone.value));
      } else if b == k && Present(row.phone) {
        assert !(a in users && users[a].phone == Some(row.phone.value));
      }
    }
  }

  // ---------------------------------------------------------------------
  // Login

  /** The users `CustomUser.objects.get(email=email)` looks at. */
  function WithEmail(users: map<Id, User>, email: string): (r: set<Id>)
    ensures forall k | k in users :: k in r <==> users[k].email == email
    ensures forall k | k in r :: k in users
  {
    set k | k in users && users[k].email == email
  }

  /** Under unique emails the lookup finds at most the one user holding the
      email. */
  lemma WithEmailUnique(users: map<Id, User>, k: Id)
    requires EmailsUnique(users) && k in users
    ensures WithEmail(users, users[k].email) == {k}
  {
  }

  /** `LoginView.post`: email and password required (400); no user with the
      email (401); several users with it (500: MultipleObjectsReturned
      escapes the inner `except`); then the password check of
      `authenticate` decides between 200 with the user and 401. */
  ghost function LoginResult(users: map<Id, User>, authenticate: (User, string) -> bool,
                             email: Option<string>, password: Option<string>): (r: Reply<Id>)
    ensures !Present(email) || !Present(password) ==> r == Err(StatusBadRequest)
    ensures Present(email) && Present(password) && !EmailTaken(users, email.value) ==> r == Err(StatusUnauthorized)
    ensures r.Ok? ==> && r.status == StatusOk && r.value in users && users[r.value].email == email.value
                      && authenticate(users[r.value], password.value)
    ensures r.Err? ==> r.status in {StatusBadRequest, StatusUnauthorized, StatusServerError}
  {
    if !Present(email) || !Present(password) then Err(StatusBadRequest)
    else
      var m := WithEmail(users, email.value);
      if |m| == 0 then Err(StatusUnauthorized)
      else if |m| > 1 then Err(StatusServerError)
      else
        var k :| k in m;
        if authenticate(users[k], password.value) then Ok(StatusOk, k) else Err(StatusUnauthorized)
  }

  /** With unique emails, login as the user holding the email succeeds
      exactly when the password checks, and never ends in 500. */
  lemma LoginOfUser(users: map<Id, User>, authenticate: (User, string) -> bool, k: Id, password: string)
    requires EmailsUnique(users) && k in users && users[k].email != "" && password != ""
    ensures var r := LoginResult(users, authenticate, Some(users[k].email), Some(password));
            && (r.Ok? <==> authenticate(users[k], password))
            && (r.Ok? ==> r.value == k)
            && (r.Err? ==> r == Err(StatusUnauthorized))
  {
    WithEmailUnique(users, k);
  }

  // ---------------------------------------------------------------------
  // The free username of an email change

  /** The k-th username tried for `base`: `base` itself, then `base1`,
      `base2`, ... */
  function Candidate(base: string, k: nat): (r: string)
    ensures k == 0 ==> r == base
    ensures k > 0 ==> r == base + NatToString(k)
  {
    if k == 0 then base else base + NatToString(k)
  }

  /** Different tries give different usernames. */
  lemma CandidateInjective(base: string, i: nat, j: nat)
    requires Candidate(base, i) == Candidate(base, j)
    ensures i == j
  {
    if i > 0 && j > 0 {
      AppendCancel(base, NatToString(i), NatToString(j));
      NatToStringInjective(i, j);
    }
  }

  /** The first `n` tries. */
  function Candidates(base: string, n: nat): (r: set<string>)
    ensures forall k | 0 <= k < n :: Candidate(base, k) in r
  {
    if n == 0 then {} else Candidates(base, n - 1) + {Candidate(base, n - 1)}
  }

  /** The first `n` tries are `n` different usernames. */
  lemma {:induction false} CandidatesSize(base: string, n: nat)
    ensures |Candidates(base, n)| == n
  {
    if n > 0 {
      CandidatesSize(base, n - 1);
      CandidatesBefore(base, n - 1);
    }
  }

  /** The `n`-th try is none of the ones before it. */
  lemma {:induction false} CandidatesBefore(base: string, n: nat)
    ensures Candidate(base, n) !in Candidates(base, n)
  {
    if n > 0 {
      CandidatesBefore(base, n - 1);
      if Candidate(base, n) == Candidate(base, n - 1) {
        CandidateInjective(base, n, n - 1);
      }
      assert Candidates(base, n) == Candidates(base, n - 1) + {Candidate(base, n - 1)};
      CandidatesLater(base, n - 1, n);
    }
  }

  /** A later try is none of the first `n`. */
  lemma {:induction false} CandidatesLater(base: string, n: nat, m: nat)
    requires n < m
    ensures Candidate(base, m) !in Candidates(base, n)
  {
    if n > 0 {
      CandidatesLater(base, n - 1, m);
      if Candidate(base, m) == Candidate(base, n - 1) {
        CandidateInjective(base, m, n - 1);
      }
    }
  }

  /** The first `n` tries, all taken, are among the taken usernames. */
  lemma {:induction false} CandidatesTaken(base: string, taken: set<string>, n: nat)
    requires forall k | 0 <= k < n :: Candidate(base, k) in taken
    ensures Candidates(base, n) <= taken
  {
    if n > 0 {
      CandidatesTaken(base, taken, n - 1);
    }
  }

  /** When the first `n` tries are all taken, at least `n` usernames are
      taken: this bounds the search. */
  lemma TriedBound(base: string, taken: set<string>, n: nat)
    requires forall k | 0 <= k < n :: Candidate(base, k) in taken
    ensures n <= |taken|
  {
    CandidatesSize(base, n);
    CandidatesTaken(base, taken, n);
    var tried := Candidates(base, n);
    assert taken == tried + (taken - tried);
    assert tried * (taken - tried) == {};
  }

  /** The index of the first free try at or after `i`, when the tries
      before `i` are all taken. */
  function FreeIndexFrom(base: string, taken: set<string>, i: nat): (k: nat)
    requires forall j | 0 <= j < i :: Candidate(base, j) in taken
    ensures i <= k <= |taken|
    ensures Candidate(base, k) !in taken
    ensures forall j | 0 <= j < k :: Candidate(base, j) in taken
    decreases |taken| - i
  {
    TriedBound(base, taken, i);
    if Candidate(base, i) !in taken then i
    else
      TriedBound(base, taken, i + 1);
      FreeIndexFrom(base, taken, i + 1)
  }

  /** The username an email change settles on: the first try that no
      other user holds. */
  function FreeUsername(base: string, taken: set<string>): (r: string)
    ensures r !in taken
    ensures base !in taken ==> r == base
    ensures base in taken ==>
              exists k | 1 <= k <= |taken| ::
                && r == base + NatToString(k)
                && forall j | 1 <= j < k :: base + NatToString(j) in taken
  {
    var k := FreeIndexFrom(base, taken, 0);
    if k == 0 then base
    else
      assert forall j | 1 <= j < k :: Candidate(base, j) == base + NatToString(j);
      base + NatToString(k)
  }

  /** The loop of `UserProfileView.update`: try `base`, then `base + str(count)`
      for count = 1, 2, ... while another user holds the try. */
  method FindFreeUsername(base: string, taken: set<string>) returns (username: string)
    ensures username == FreeUsername(base, taken)
  {
    username := base;
    var count: nat := 1;
    while username in taken
      invariant forall j | 0 <= j < count - 1 :: Candidate(base, j) in taken
      invariant username == Candidate(base, count - 1)
      invariant 1 <= count && FreeIndexFrom(base, taken, count - 1) == FreeIndexFrom(base, taken, 0)
      decreases |taken| - count
    {
      TriedBound(base, taken, count);
      username := base + NatToString(count);
      count := count + 1;
    }
  }

  // ---------------------------------------------------------------------
  // Profile update

  /** A `UserProfileView.update` request; a None field is not supplied.
      `pictureKey` says the form data names `profile_picture` without a
      file. */
  datatype ProfileInput = ProfileInput(
    firstName: Option<string>,
    lastName: Option<string>,
    email: Option<string>,
    phone: Option<string>,
    userType: Option<string>,
    picture: Option<string>,
    pictureKey: bool)

  /** The usernames of the users other than `u`. */
  function OtherUsernames(users: map<Id, User>, u: Id): (r: set<string>)
    ensures forall k | k in users && k != u :: users[k].username in r
    ensures forall s | s in r :: exists k | k in users && k != u :: users[k].username == s
  {
    set k | k in users && k != u :: users[k].username
  }

  predicate HeldByOther(users: map<Id, User>, u: Id, email: string) {
    exists k | k in users && k != u :: users[k].email == email
  }

  predicate PhoneHeldByOther(users: map<Id, User>, u: Id, phone: string) {
    exists k | k in users && k != u :: users[k].phone == Some(phone)
  }

  /** The phone number the request asks for: an empty one clears it. */
  function RequestedPhone(phone: Option<string>): (r: Option<string>)
    ensures phone == Some("") ==> r.None?
    ensures r.Some? ==> r == phone && Present(r)
  {
    if phone == Some("") then None else phone
  }

  /** The checks of the profile update of user `u`, in order: a non-empty
      email other than the user's own that another user holds (400), then a
      phone number other than the user's own that another user holds
      (400). */
  function ProfileError(users: map<Id, User>, u: Id, inp: ProfileInput): (e: Option<int>)
    requires u in users
    ensures e.None? <==>
              && !(Present(inp.email) && inp.email.value != users[u].email && HeldByOther(users, u, inp.email.value))
              && !(RequestedPhone(inp.phone).Some? && RequestedPhone(inp.phone) != users[u].phone
                   && PhoneHeldByOther(users, u, inp.phone.value))
    ensures e.None? || e == Some(StatusBadRequest)
  {
    var phone := RequestedPhone(inp.phone);
    if Present(inp.email) && inp.email.value != users[u].email && HeldByOther(users, u, inp.email.value) then
      Some(StatusBadRequest)
    else if phone.Some? && phone != users[u].phone && PhoneHeldByOther(users, u, phone.value) then
      Some(StatusBadRequest)
    else None
  }

  /** User `u` after a profile update whose checks passed: supplied fields
      replace the old values; an empty phone number clears it; a new email
      renames the user to the first free username of its prefix. */
  function ProfileEdited(users: map<Id, User>, u: Id, inp: ProfileInput): (r: User)
    requires u in users
    ensures r.password == users[u].password
    ensures !(Present(inp.email) && inp.email.value != users[u].email) ==> r.username == users[u].username
    ensures Present(inp.email) ==> r.email == inp.email.value
    ensures !Present(inp.email) ==> r.email == users[u].email
    ensures inp.phone == Some("") ==> r.phone.None?
    ensures inp.phone.None? ==> r.phone == users[u].phone
    ensures inp.phone.Some? && inp.phone != Some("") ==> r.phone == inp.phone
    ensures Present(inp.email) && inp.email.value != users[u].email ==>
              r.username == FreeUsername(BeforeAt(inp.email.value), OtherUsernames(users, u))
    ensures inp.firstName.Some? ==> r.firstName == inp.firstName.value
    ensures inp.firstName.None? ==> r.firstName == users[u].firstName
    ensures inp.lastName.Some? ==> r.lastName == inp.lastName.value
    ensures inp.lastName.None? ==> r.lastName == users[u].lastName
    ensures inp.userType.Some? ==> r.userType == inp.userType.value
    ensures inp.userType.None? ==> r.userType == users[u].userType
    ensures r.picture == UpdatedFile(users[u].picture, inp.picture, inp.pictureKey)
    ensures inp == ProfileInput(None, None, None, None, None, None, false) ==> r == users[u]
  {
    var user := users[u];
    var changed := Present(inp.email) && inp.email.value != user.email;
    User(if changed then FreeUsername(BeforeAt(inp.email.value), OtherUsernames(users, u)) else user.username,
         if Present(inp.email) then inp.email.value else user.email,
         OrElse(inp.firstName, user.firstName),
         OrElse(inp.lastName, user.lastName),
         if inp.phone.Some? then RequestedPhone(inp.phone) else user.phone,
         OrElse(inp.userType, user.userType),
         UpdatedFile(user.picture, inp.picture, inp.pictureKey),
         user.password)
  }

  /** The user's own email is never a conflict and keeps the username. */
  lemma OwnEmailKept(users: map<Id, User>, u: Id, inp: ProfileInput)
    requires u in users && inp.email == Some(users[u].email)
    ensures ProfileError(users, u, inp) == ProfileError(users, u, inp.(email := None))
    ensures ProfileEdited(users, u, inp).username == users[u].username
  {
  }

  /** A profile update that passes its checks keeps every uniqueness rule:
      the new username is one no other user holds, and the new email and
      phone number are not another user's. */
  lemma ProfileKeepsUnique(users: map<Id, User>, u: Id, inp: ProfileInput)
    requires Unique(users) && u in users && ProfileError(users, u, inp).None?
    ensures Unique(users[u := ProfileEdited(users, u, inp)])
  {
    var row := ProfileEdited(users, u, inp);
    UsernameKept(users, u, row);
    EmailKept(users, u, row);
    PhoneKept(users, u, row);
  }

  lemma UsernameKept(users: map<Id, User>, u: Id, row: User)
    requires UsernamesUnique(users) && u in users
    requires row.username == users[u].username || row.username !in OtherUsernames(users, u)
    ensures UsernamesUnique(users[u := row])
  {
    var m := users[u := row];
    var others := OtherUsernames(users, u);
    forall a, b | a in m && b in m && a != b ensures m[a].username != m[b].username {
      if a == u {
        assert users[b].username in others;
      } else if b == u {
        assert users[a].username in others;
      }
    }
  }

  lemma EmailKept(users: map<Id, User>, u: Id, row: User)
    requires EmailsUnique(users) && u in users
    requires row.email == users[u].email || !HeldByOther(users, u, row.email)
    ensures EmailsUnique(users[u := row])
  {
    var m := users[u := row];
    forall a, b | a in m && b in m && a != b ensures m[a].email != m[b].email {
      if a == u {
        assert !(b in users && b != u && users[b].email == row.email);
      } else if b == u {
        assert !(a in users && a != u && users[a].email == row.email);
      }
    }
  }

  lemma PhoneKept(users: map<Id, User>, u: Id, row: User)
    requires PhonesUnique(users) && u in users
    requires row.phone == users[u].phone || row.phone.None? || !PhoneHeldByOther(users, u, row.phone.value)
    ensures PhonesUnique(users[u := row])
  {
    var m := users[u := row];
    forall a, b | a in m && b in m && a != b && Present(m[a].phone) ensures m[a].phone != m[b].phone {
      if a == u && row.phone != users[u].phone {
        assert !(b in users && b != u && users[b].phone == Some(row.phone.value));
      } else if b == u && row.phone != users[u].phone && row.phone.Some? {
        assert !(a in users && a != u && users[a].phone == Some(row.phone.value));
      }
    }
  }

  /** The email step of a profile update: a new email that another user
      holds is refused (400); a new one renames the user to the first free
      username of its prefix. */
  method EditEmail(users: map<Id, User>, u: Id, user: User, email: string) returns (e: Option<int>, user': User)
    requires u in users && user.email == users[u].email
    ensures e.Some? <==> email != user.email && HeldByOther(users, u, email)
    ensures e.Some? ==> e == Some(StatusBadRequest)
    ensures e.None? ==>
              user' == user.(username := if email != user.email then FreeUsername(BeforeAt(email), OtherUsernames(users, u))
                                         else user.username,
                             email := email)
  {
    user' := user;
    if email != user'.email && HeldByOther(users, u, email) {
      return Some(StatusBadRequest), user';
    }
    if email != user'.email {
      var username := FindFreeUsername(BeforeAt(email), OtherUsernames(users, u));
      user' := user'.(username := username);
    }
    user' := user'.(email := email);
    e := None;
  }

  /** The phone step of a profile update: a number other than the user's
      own that another user holds is refused (400). */
  method EditPhone(users: map<Id, User>, u: Id, user: User, phone: string) returns (e: Option<int>, user': User)
    requires u in users
    ensures e.Some? <==> Some(phone) != users[u].phone && PhoneHeldByOther(users, u, phone)
    ensures e.Some? ==> e == Some(StatusBadRequest)
    ensures e.None? ==> user' == user.(phone := Some(phone))
  {
    user' := user;
    if Some(phone) != users[u].phone && PhoneHeldByOther(users, u, phone) {
      return Some(StatusBadRequest), user';
    }
    user' := user'.(phone := Some(phone));
    e := None;
  }

  /** The field-by-field edit of user `u` in a profile update, proved
      against ProfileError and ProfileEdited. */
  method EditProfile(users: map<Id, User>, u: Id, inp: ProfileInput) returns (e: Option<int>, user: User)
    requires u in users
    ensures e == ProfileError(users, u, inp)
    ensures e.None? ==> user == ProfileEdited(users, u, inp)
  {
    ghost var target := ProfileEdited(users, u, inp);
    user := users[u];
    var phone := inp.phone;
    if phone == Some("") {
      phone := None;
      user := user.(phone := None);
    }
    if inp.firstName.Some? {
      user := user.(firstName := inp.firstName.value);
    }
    if inp.lastName.Some? {
      user := user.(lastName := inp.lastName.value);
    }
    if inp.email.Some? && inp.email.value != "" {
      e, user := EditEmail(users, u, user, inp.email.value);
      if e.Some? {
        return;
      }
    }
    assert user.username == target.username && user.email == target.email;
    assert user.firstName == target.firstName && user.lastName == target.lastName;
    assert Present(inp.email) && inp.email.value != users[u].email ==> !HeldByOther(users, u, inp.email.value);
    if phone.Some? {
      e, user := EditPhone(users, u, user, phone.value);
      if e.Some? {
        return;
      }
    }
    if inp.userType.Some? {
      user := user.(userType := inp.userType.value);
    }
    if inp.picture.Some? {
      user := user.(picture := inp.picture);
    } else if inp.pictureKey {
      user := user.(picture := None);
    }
    e := None;
  }

  // ---------------------------------------------------------------------
  // The store the handlers work on

  class UserStore {
    /** `make_password`. */
    const hash: string -> string
    /** What `authenticate` decides for a user and a password. */
    const authenticate: (User, string) -> bool
    var users: map<Id, User>
    var next: nat

    ghost predicate Valid()
      reads this
    {
      Below(users.Keys, next) && Unique(users)
    }

    /** No users yet. */
    constructor (hash: string -> string, authenticate: (User, string) -> bool)
      ensures Valid() && users == map[] && next == 1
      ensures this.hash == hash && this.authenticate == authenticate
    {
      this.hash := hash;
      this.authenticate := authenticate;
      users := map[];
      next := 1;
    }

    /** `RegisterView.create`: the checks of RegisterError, then one user
        under the next id. */
    method Register(email: Option<string>, password: Option<string>, firstName: Option<string>,
                    lastName: Option<string>, phone: Option<string>, userType: Option<string>,
                    picture: Option<string>)
      returns (r: Reply<Id>)
      requires Valid()
      modifies this
      ensures Valid()
      ensures var e := RegisterError(old(users), email, password, phone);
              && (e.Some? ==> r == Err(e.value) && users == old(users) && next == old(next))
              && (e.None? ==>
                    && r == Ok(StatusCreated, old(next)) && old(next) !in old(users)
                    && users == old(users)[old(next) := NewUser(email.value, hash(password.value), firstName, lastName,
                                                                phone, userType, picture)]
                    && next == old(next) + 1)
    {
      if !Present(email) || !Present(password) {
        return Err(StatusBadRequest);
      }
      var username := BeforeAt(email.value);
      if EmailTaken(users, email.value) {
        return Err(StatusBadRequest);
      }
      if Present(phone) && PhoneTaken(users, phone.value) {
        return Err(StatusBadRequest);
      }
      if UsernameTaken(users, username) {
        return Err(StatusServerError);
      }
      var row := NewUser(email.value, hash(password.value), firstName, lastName, phone, userType, picture);
      UserAdded(users, next, row);
      users, next := users[next := row], next + 1;
      r := Ok(StatusCreated, next - 1);
    }

    /** `LoginView.post`: nothing is written. */
    method Login(email: Option<string>, password: Option<string>) returns (r: Reply<Id>)
      ensures r == LoginResult(users, authenticate, email, password)
    {
      if !Present(email) || !Present(password) {
        return Err(StatusBadRequest);
      }
      var matches := WithEmail(users, email.value);
      if |matches| == 0 {
        return Err(StatusUnauthorized);
      }
      if |matches| > 1 {
        return Err(StatusServerError);
      }
      var k :| k in matches;
      SingleMatch(matches, k);
      if !authenticate(users[k], password.value) {
        return Err(StatusUnauthorized);
      }
      r := Ok(StatusOk, k);
    }

    /** `UserProfileView.update` of the signed-in user `u`: the checks of
        ProfileError, then the user becomes ProfileEdited. */
    method UpdateProfile(u: Id, inp: ProfileInput) returns (r: Reply<User>)
      requires Valid() && u in users
      modifies this
      ensures Valid() && next == old(next)
      ensures var e := ProfileError(old(users), u, inp);
              && (e.Some? ==> r == Err(e.value) && users == old(users))
              && (e.None? ==>
                    var user := ProfileEdited(old(users), u, inp);
                    r == Ok(StatusOk, user) && users == old(users)[u := user])
    {
      var e, user := EditProfile(users, u, inp);
      if e.Some? {
        return Err(e.value);
      }
      ProfileKeepsUnique(users, u, inp);
      users := users[u := user];
      r := Ok(StatusOk, user);
    }
  }
}
