/** The user schema: the path rules for name, email, password and phone, the
    unique email index, the save hook that re-hashes a changed password, and
    the password comparison. bcrypt is abstract: a `Bcrypt` value supplies
    the hash and the salt embedded in a hash. */
module UserSchema {
  import opened Wrappers
  import opened Strings
  import opened Documents

  /** A stored user. */
  datatype UserRecord = UserRecord(
    id: ObjectId, name: string, email: string, password: string, phone: string, createdAt: nat)

  /** A user as `select('-password')` returns it. */
  datatype PublicUser = PublicUser(id: ObjectId, name: string, email: string, phone: string, createdAt: nat)

  function WithoutPassword(u: UserRecord): (p: PublicUser)
    ensures p.id == u.id && p.name == u.name && p.email == u.email
    ensures p.phone == u.phone && p.createdAt == u.createdAt
  {
    PublicUser(u.id, u.name, u.email, u.phone, u.createdAt)
  }

  /** The fields given to `new User(...)`; any may be missing. */
  datatype UserInput = UserInput(name: Option<string>, email: Option<string>, password: Option<string>, phone: Option<string>)

  const MinPasswordLength := 6

  predicate IsDigit(c: char) {
    '0' <= c <= '9'
  }

  /** `/^[0-9]{10}$/`. */
  predicate MatchesPhone(s: string) {
    |s| == 10 && forall i :: 0 <= i < |s| ==> IsDigit(s[i])
  }

  /** An `@` at `i` and a `.` at `j` that split `s` into three non-empty runs. */
  predicate EmailSplitAt(s: string, i: nat, j: nat) {
    1 <= i && i + 2 <= j && j + 2 <= |s| && s[i] == '@' && s[j] == '.'
  }

  /** `/^\S+@\S+\.\S+$/`: no white space anywhere (`@` and `.` are
      themselves `\S`), and some `@` and later `.` leave a non-empty run
      before, between and after them. */
  predicate MatchesEmail(s: string) {
    NoSpace(s) && exists i, j | 0 <= i < j < |s| :: EmailSplitAt(s, i, j)
  }

  /** Lower-casing, which the `lowercase` setter applies before the `match`
      validator runs, neither makes nor breaks an address. */
  lemma LowerKeepsEmailShape(s: string)
    ensures MatchesEmail(Lower(s)) <==> MatchesEmail(s)
  {
    var t := Lower(s);
    if MatchesEmail(s) {
      var i, j :| 0 <= i < j < |s| && EmailSplitAt(s, i, j);
      assert EmailSplitAt(t, i, j);
    }
    if MatchesEmail(t) {
      var i, j :| 0 <= i < j < |t| && EmailSplitAt(t, i, j);
      assert EmailSplitAt(s, i, j);
      forall k | 0 <= k < |s| ensures !IsSpace(s[k]) {
        assert !IsSpace(t[k]);
      }
    }
  }

  function SetName(v: Option<string>): Option<string> {
    if v.Some? then Some(Trim(v.value)) else None
  }

  function SetEmail(v: Option<string>): Option<string> {
    if v.Some? then Some(Lower(v.value)) else None
  }

  /** The validators of the four paths, in schema order; on each path the
      required check comes first. `input` has been through the setters. */
  function UserViolations(input: UserInput): seq<Violation> {
    (if Truthy(input.name) then [] else [Required("name", "Name is required")])
    + (if !Truthy(input.email) then [Required("email", "Email is required")]
       else if MatchesEmail(input.email.value) then []
       else [Mismatch("email", "Please enter a valid email")])
    + (if !Truthy(input.password) then [Required("password", "Password is required")]
       else if |input.password.value| >= MinPasswordLength then []
       else [TooShort("password", "Password must be at least 6 characters")])
    + (if !Truthy(input.phone) then [Required("phone", "Phone number is required")]
       else if MatchesPhone(input.phone.value) then []
       else [Mismatch("phone", "Please enter a valid 10-digit phone number")])
  }

  /** The acceptance condition, path by path. */
  predicate AcceptableUser(input: UserInput) {
    && Truthy(input.name)
    && input.email.Some? && MatchesEmail(input.email.value)
    && input.password.Some? && |input.password.value| >= MinPasswordLength
    && input.phone.Some? && MatchesPhone(input.phone.value)
  }

  lemma UserViolationsIffUnacceptable(input: UserInput)
    ensures UserViolations(input) == [] <==> AcceptableUser(input)
  {
  }

  /** A password of five characters is refused before it is ever hashed. */
  lemma ShortPasswordRejected(input: UserInput)
    requires input.password.Some? && 0 < |input.password.value| < MinPasswordLength
    ensures TooShort("password", "Password must be at least 6 characters") in UserViolations(input)
  {
    var v := UserViolations(input);
    var a := if Truthy(input.name) then [] else [Required("name", "Name is required")];
    var b := if !Truthy(input.email) then [Required("email", "Email is required")]
       else if MatchesEmail(input.email.value) then []
       else [Mismatch("email", "Please enter a valid email")];
    assert v[|a| + |b|] == TooShort("password", "Password must be at least 6 characters");
  }

  /** bcrypt as the model sees it: `hash(password, salt)` and the salt that a
      hash string carries. */
  datatype Bcrypt = Bcrypt(hash: (string, string) -> string, saltOf: string -> string)

  /** `bcrypt.compare(entered, stored)`: hash the candidate with the stored
      hash's own salt and compare hashes, never plain texts. */
  predicate Compare(c: Bcrypt, entered: string, stored: string) {
    c.hash(entered, c.saltOf(stored)) == stored
  }

  /** The password that produced a hash passes the comparison against it. */
  lemma CompareAcceptsOwnHash(c: Bcrypt, password: string, salt: string)
    requires c.saltOf(c.hash(password, salt)) == salt
    ensures Compare(c, password, c.hash(password, salt))
  {
  }

  /** Any other password passes only if it collides with it under that salt. */
  lemma CompareOnlyOnCollision(c: Bcrypt, password: string, other: string, salt: string)
    requires c.saltOf(c.hash(password, salt)) == salt
    requires Compare(c, other, c.hash(password, salt))
    ensures c.hash(other, salt) == c.hash(password, salt)
  {
  }

  /** `SameIgnoringCase(a, b)`: the two strings differ at most in the case of
      their ASCII letters. */
  predicate SameIgnoringCase(a: string, b: string) {
    |a| == |b| && forall i :: 0 <= i < |a| ==> LowerChar(a[i]) == LowerChar(b[i])
  }

  /** The unique index on `email`: an insert succeeds only when no stored
      user has the same stored email, and then adds exactly that user. */
  function InsertUser(users: map<ObjectId, UserRecord>, u: UserRecord): (r: Result<map<ObjectId, UserRecord>, string>)
    ensures r.Err? <==> u.id in users || exists k :: k in users && users[k].email == u.email
    ensures r.Ok? ==> r.value == users[u.id := u]
  {
    if u.id in users || exists k | k in users :: users[k].email == u.email then
      Err("E11000 duplicate key error")
    else
      Ok(users[u.id := u])
  }

  /** Two registrations whose emails differ only in case store the same
      key, so the second one is refused whatever its other fields. */
  lemma CaseVariantsCollide(users: map<ObjectId, UserRecord>, first: UserRecord, second: UserRecord, a: string, b: string)
    requires SameIgnoringCase(a, b)
    requires first.email == Lower(a) && second.email == Lower(b)
    requires InsertUser(users, first).Ok?
    ensures InsertUser(InsertUser(users, first).value, second).Err?
  {
    assert Lower(a) == Lower(b);
    var after := InsertUser(users, first).value;
    assert first.id in after && after[first.id].email == second.email;
  }
}

/** A user document in memory, with Mongoose's record of whether the
    password path was modified since it was loaded or saved. */
module UserDocuments {
  import opened Wrappers
  import opened Strings
  import opened Documents
  import opened UserSchema

  class UserDocument {
    var id: ObjectId
    var name: Option<string>
    var email: Option<string>
    var password: Option<string>
    var phone: Option<string>
    var createdAt: nat
    var passwordModified: bool

    function Fields(): UserInput
      reads this
    {
      UserInput(name, email, password, phone)
    }

    /** `new User(input)`: the setters of name and email run on assignment,
        the creation instant defaults to `now`, and a password given to a
        new document counts as modified. */
    constructor (id: ObjectId, input: UserInput, now: nat)
      ensures this.id == id && createdAt == now
      ensures name == SetName(input.name) && email == SetEmail(input.email)
      ensures password == input.password && phone == input.phone
      ensures passwordModified == input.password.Some?
    {
      this.id := id;
      name := SetName(input.name);
      email := SetEmail(input.email);
      password := input.password;
      phone := input.phone;
      createdAt := now;
      passwordModified := input.password.Some?;
    }

    /** `save()`: the validators run on the plain text first; if they pass,
        the `pre('save')` hook replaces the password by
        `hash(password, salt)` exactly when the path was modified, and the
        modification mark is cleared. `salt` stands for `genSalt(10)`. */
    method Save(c: Bcrypt, salt: string) returns (errors: seq<Violation>)
      modifies this
      ensures errors == UserViolations(old(Fields()))
      ensures errors != [] ==>
        && password == old(password) && passwordModified == old(passwordModified)
      ensures errors == [] ==>
        && old(password).Some? && password.Some?
        && password.value == (if old(passwordModified) then c.hash(old(password).value, salt) else old(password).value)
        && !passwordModified
      ensures errors == [] && old(passwordModified) && c.saltOf(c.hash(old(password).value, salt)) == salt ==>
        ComparePassword(c, old(password).value)
      ensures id == old(id) && name == old(name) && email == old(email)
      ensures phone == old(phone) && createdAt == old(createdAt)
    {
      UserViolationsIffUnacceptable(Fields());
      errors := UserViolations(Fields());
      if errors != [] {
        return;
      }
      if passwordModified {
        password := Some(c.hash(password.value, salt));
      }
      passwordModified := false;
    }

    /** `comparePassword(entered)` against the stored hash. */
    predicate ComparePassword(c: Bcrypt, entered: string): (ok: bool)
      reads this
      ensures ok ==> password.Some?
      ensures forall salt :: password == Some(c.hash(entered, salt)) && c.saltOf(c.hash(entered, salt)) == salt ==> ok
    {
      password.Some? && Compare(c, entered, password.value)
    }
  }
}
