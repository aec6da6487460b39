/** Account registration and login (backend/controllers/userController.js) over the user
    collection. Password hashing and comparison, token signing and the email-syntax check are
    library calls and enter as parameters. */
module Accounts {
  import opened Base
  import opened Text
  import opened Records
  import opened OrderModel

  /** A stored user: `password` holds the bcrypt hash; `cartData` the in-progress cart. */
  datatype User = User(name: string, email: string, password: string, cartData: Cart)

  /** A reply of the login and registration handlers: a token issued for `userId`, or a failure
      with its HTTP status code. */
  datatype AuthReply = Granted(code: int, userId: RecordId) | Refused(code: int, message: string)

  /** `[A-Za-z\d@$!%*?&]` */
  predicate IsPasswordChar(c: char) {
    IsAsciiLetter(c) || IsDigit(c) || IsPasswordSymbol(c)
  }

  /** `/^(?=.*[A-Za-z])(?=.*\d)(?=.*[@$!%*?&])[A-Za-z\d@$!%*?&]{8,}$/` */
  predicate PasswordPattern(pw: string) {
    && AnyIn(pw, IsAsciiLetter) && AnyIn(pw, IsDigit) && AnyIn(pw, IsPasswordSymbol)
    && |pw| >= 8 && AllIn(pw, IsPasswordChar)
  }

  /** The password check of `registerUser`: rejected when shorter than 8 or not matching the
      pattern. */
  function PasswordAccepted(pw: string): (ok: bool)
    ensures ok <==>
      && |pw| >= 8
      && (forall i :: 0 <= i < |pw| ==> IsAsciiLetter(pw[i]) || IsDigit(pw[i]) || IsPasswordSymbol(pw[i]))
      && (exists i :: 0 <= i < |pw| && IsAsciiLetter(pw[i]))
      && (exists i :: 0 <= i < |pw| && IsDigit(pw[i]))
      && (exists i :: 0 <= i < |pw| && IsPasswordSymbol(pw[i]))
  {
    !(|pw| < 8 || !PasswordPattern(pw))
  }

  /** Some stored user has `email`, compared case-insensitively. */
  predicate EmailTaken(users: map<RecordId, User>, email: string) {
    exists id :: id in users && EqualsIgnoreCase(users[id].email, email)
  }

  class UserStore {
    var users: map<RecordId, User>
    var nextId: RecordId

    /** Record ids are below the next one to be issued, and no two users share an email up to
        case: registration is the only way users are added. */
    ghost predicate Valid()
      reads this
    {
      && (forall id :: id in users ==> id < nextId)
      && (forall a, b :: a in users && b in users && a != b ==> !EqualsIgnoreCase(users[a].email, users[b].email))
    }

    constructor ()
      ensures Valid() && users == map[]
    {
      users := map[];
      nextId := 0;
    }

    /** `userModel.findOne({ email: /^email$/i })` */
    function FindByEmail(email: string): (r: Option<RecordId>)
      reads this
      requires Valid()
      ensures r.Some? ==> r.value in users && EqualsIgnoreCase(users[r.value].email, email)
      ensures r.None? <==> !EmailTaken(users, email)
    {
      FindFirst(users, (u: User) => EqualsIgnoreCase(u.email, email), nextId)
    }

    /** `loginUser`: 404 when no user has the email (up to case); otherwise a token when the
        password matches the stored hash, and 400 when it does not. */
    function Login(email: string, password: string, passwordMatches: (string, string) -> bool): (r: AuthReply)
      reads this
      requires Valid()
      ensures !EmailTaken(users, email) ==> r == Refused(404, "User doesn't exist")
      ensures forall id :: id in users && EqualsIgnoreCase(users[id].email, email) ==>
        r == if passwordMatches(password, users[id].password) then Granted(200, id)
             else Refused(400, "Invalid credentials")
    {
      match FindByEmail(email)
      case None => Refused(404, "User doesn't exist")
      case Some(id) =>
        if passwordMatches(password, users[id].password) then Granted(200, id)
        else Refused(400, "Invalid credentials")
    }

    /** `registerUser`: the duplicate-email check comes first, then the name, email and password
        checks; only when all pass is one user stored, with the given password hash and an empty
        cart. */
    method Register(name: string, email: string, password: string,
                    isEmail: string -> bool, hashed: string) returns (reply: AuthReply)
      requires Valid()
      modifies this
      ensures Valid()
      ensures EmailTaken(old(users), email) ==>
        reply == Refused(400, "User already exists") && users == old(users)
      ensures !EmailTaken(old(users), email) && !LettersAndSpaces(name) ==>
        reply == Refused(400, "Name should only contain letters and spaces") && users == old(users)
      ensures !EmailTaken(old(users), email) && LettersAndSpaces(name) && !isEmail(email) ==>
        reply == Refused(400, "Please enter a valid email") && users == old(users)
      ensures !EmailTaken(old(users), email) && LettersAndSpaces(name) && isEmail(email) && !PasswordAccepted(password) ==>
        reply == Refused(400, PasswordRule) && users == old(users)
      ensures !EmailTaken(old(users), email) && LettersAndSpaces(name) && isEmail(email) && PasswordAccepted(password) ==>
        && reply == Granted(201, old(nextId))
        && old(nextId) !in old(users)
        && users == old(users)[old(nextId) := User(name, email, hashed, [])]
    {
      var existing := FindByEmail(email);
      if existing.Some? {
        return Refused(400, "User already exists");
      }
      if !LettersAndSpaces(name) {
        return Refused(400, "Name should only contain letters and spaces");
      }
      if !isEmail(email) {
        return Refused(400, "Please enter a valid email");
      }
      if |password| < 8 || !PasswordPattern(password) {
        return Refused(400, PasswordRule);
      }
      var id := nextId;
      users := users[id := User(name, email, hashed, [])];
      nextId := nextId + 1;
      reply := Granted(201, id);
    }

    /** `findByIdAndUpdate(userId, { cartData: {} })`: empties that user's cart; an unknown id
        changes nothing. */
    method ClearCart(userId: RecordId)
      requires Valid()
      modifies this
      ensures Valid() && nextId == old(nextId)
      ensures userId in old(users) ==> users == old(users)[userId := old(users)[userId].(cartData := [])]
      ensures userId !in old(users) ==> users == old(users)
    {
      if userId in users {
        users := users[userId := users[userId].(cartData := [])];
      }
    }
  }

  const PasswordRule: string :=
    "Password must be at least 8 characters long and include a number, a letter, and a special character."

  /** The outcome of `adminLogin`. */
  datatype AdminReply = AdminGranted | AdminRefused(message: string)

  /** `adminLogin`: a token only for exactly the configured email and password. */
  function AdminLogin(email: string, password: string, adminEmail: string, adminPassword: string): (r: AdminReply)
    ensures r.AdminGranted? <==> email == adminEmail && password == adminPassword
    ensures r.AdminRefused? ==> r.message == "Invalid Credentials"
  {
    if email == adminEmail && password == adminPassword then AdminGranted
    else AdminRefused("Invalid Credentials")
  }
}
