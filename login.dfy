/** The account service of the movie application: users register with an
    e-mail and a password (stored as a hash) and log in with the same pair.
    The user store is the JSON file the data service reads and rewrites,
    kept here as the list of users it holds; the password hash is a
    function given to the service. */
module MovieAccounts {
  import opened Wrappers

  // ---------------------------------------------------------------- results

  /** `Result<T>`: success flag, payload (C# `T?`) and optional message. */
  datatype Result<T> = Result(isSuccess: bool, data: Option<T>, message: Option<string>)

  function Success<T>(data: Option<T>, message: Option<string>): (r: Result<T>)
    ensures r.isSuccess && r.data == data && r.message == message
  {
    Result(true, data, message)
  }

  function Error<T>(data: Option<T>, message: Option<string>): (r: Result<T>)
    ensures !r.isSuccess && r.data == data && r.message == message
  {
    Result(false, data, message)
  }

  const PASSWORDS_DIFFER := "Passwords do not match"
  const EMAIL_TAKEN := "Email already exists"
  const REGISTERED := "User registered successfully"
  const NO_USERS := "No users registered"
  const BAD_CREDENTIALS := "Invalid email or password"
  const LOGGED_IN := "Login successful"

  // ------------------------------------------------------------ entities

  datatype RegisterRequest = RegisterRequest(email: string, password: string, confirmPassword: string)

  datatype LoginRequest = LoginRequest(email: string, password: string)

  /** A stored user; `id` stands for the `Guid` drawn when it is created. */
  datatype User = User(id: nat, email: string, passwordHash: string)

  /** `PasswordHasher.HashPassword` (SHA-256, then Base64). */
  type Hasher = string -> string

  /** `PasswordHasher.VerifyPassword`: the password matches a stored hash
      exactly when hashing it gives that hash. */
  function VerifyPassword(hash: Hasher, password: string, hashed: string): (ok: bool)
    ensures ok <==> hash(password) == hashed
  {
    hash(password) == hashed
  }

  /** A password always verifies against its own hash. */
  lemma VerifyOwnHash(hash: Hasher, password: string)
    ensures VerifyPassword(hash, password, hash(password))
  {
  }

  // ------------------------------------------------------------- store

  /** `users.Any(u => u.Email == email)`. */
  predicate EmailTaken(users: seq<User>, email: string)
    ensures EmailTaken(users, email) <==> email in (set u | u in users :: u.email)
  {
    exists i :: 0 <= i < |users| && users[i].email == email
  }

  /** Index of `users.FirstOrDefault(u => u.Email == email)`, if any. */
  function FirstWithEmail(users: seq<User>, email: string): (r: Option<nat>)
    ensures r.Some? ==> r.value < |users| && users[r.value].email == email
    ensures r.Some? ==> forall j :: 0 <= j < r.value ==> users[j].email != email
    ensures r.None? <==> !EmailTaken(users, email)
    decreases |users|
  {
    if users == [] then None
    else if users[0].email == email then Some(0)
    else
      var r := FirstWithEmail(users[1..], email);
      assert forall i :: 1 <= i < |users| ==> users[i] == users[1..][i - 1];
      if r.None? then None else Some(r.value + 1)
  }

  /** What the user file holds: no file, an empty file, or JSON text that
      deserializes to a list of users or to `null`. */
  datatype UserFile = Missing | EmptyText | Json(users: Option<seq<User>>)

  /** `DataService` for `User`, over the user file. */
  class DataService {
    var file: UserFile

    constructor (file: UserFile)
      ensures this.file == file
    {
      this.file := file;
    }

    /** `GetAllData<User>()`: null without a file, with an empty file, or
        when the JSON is `null`; otherwise the users in file order. */
    function GetAllData(): (users: Option<seq<User>>)
      reads this
      ensures users.None? <==> file.Missing? || file.EmptyText? || file.users.None?
      ensures file.Json? && file.users.Some? ==> users == file.users
    {
      match file
      case Missing => None
      case EmptyText => None
      case Json(users) => users
    }

    /** `AddData<User>(user)`: the stored users (none if the store is
        absent) with `user` appended, written back as JSON. */
    method AddData(user: User)
      modifies this
      ensures GetAllData() == Some(old(GetAllData()).GetOr([]) + [user])
    {
      var values := GetAllData().GetOr([]);
      file := Json(Some(values + [user]));
    }
  }

  /** `AccountService`, with the hash function it calls. */
  class AccountService {
    const data: DataService
    const hash: Hasher

    constructor (data: DataService, hash: Hasher)
      ensures this.data == data && this.hash == hash
    {
      this.data := data;
      this.hash := hash;
    }

    /** `RegisterUser`; `id` is the Guid the new user would get. */
    method RegisterUser(request: RegisterRequest, id: nat) returns (r: Result<User>)
      modifies data
      ensures request.password != request.confirmPassword ==>
                r == Error(None, Some(PASSWORDS_DIFFER)) && data.file == old(data.file)
      ensures request.password == request.confirmPassword
              && EmailTaken(old(data.GetAllData()).GetOr([]), request.email) ==>
                r == Error(None, Some(EMAIL_TAKEN)) && data.file == old(data.file)
      ensures request.password == request.confirmPassword
              && !EmailTaken(old(data.GetAllData()).GetOr([]), request.email) ==>
                var user := User(id, request.email, hash(request.password));
                r == Success(Some(user), Some(REGISTERED))
                && data.GetAllData() == Some(old(data.GetAllData()).GetOr([]) + [user])
    {
      if request.password != request.confirmPassword {
        return Error(None, Some(PASSWORDS_DIFFER));
      }
      var users := data.GetAllData().GetOr([]);
      if FirstWithEmail(users, request.email).Some? {
        return Error(None, Some(EMAIL_TAKEN));
      }
      var user := User(id, request.email, hash(request.password));
      data.AddData(user);
      r := Success(Some(user), Some(REGISTERED));
    }

    /** `LoginUser`: reads the store and changes nothing. */
    method LoginUser(request: LoginRequest) returns (r: Result<User>)
      ensures r == Login(data.GetAllData(), hash, request)
    {
      var users := data.GetAllData();
      if users.None? {
        return Error(None, Some(NO_USERS));
      }
      var i := FirstWithEmail(users.value, request.email);
      if i.None? || !VerifyPassword(hash, request.password, users.value[i.value].passwordHash) {
        return Error(None, Some(BAD_CREDENTIALS));
      }
      r := Success(Some(users.value[i.value]), Some(LOGGED_IN));
    }
  }

  /** The decision `LoginUser` takes on the stored users. */
  function Login(users: Option<seq<User>>, hash: Hasher, request: LoginRequest): (r: Result<User>)
    ensures users.None? ==> r == Error(None, Some(NO_USERS))
    ensures r.isSuccess ==> r.message == Some(LOGGED_IN) && r.data.Some?
    ensures !r.isSuccess ==> r.data == None
    ensures users.Some? && !r.isSuccess ==> r.message == Some(BAD_CREDENTIALS)
  {
    if users.None? then Error(None, Some(NO_USERS))
    else
      var i := FirstWithEmail(users.value, request.email);
      if i.None? || !VerifyPassword(hash, request.password, users.value[i.value].passwordHash)
      then Error(None, Some(BAD_CREDENTIALS))
      else Success(Some(users.value[i.value]), Some(LOGGED_IN))
  }

  /** Login succeeds exactly when the store exists and the first user with
      the e-mail has the hash of the password, and then returns that first
      user, never a later one with the same e-mail. */
  lemma LoginSucceedsIff(users: Option<seq<User>>, hash: Hasher, request: LoginRequest)
    ensures Login(users, hash, request).isSuccess <==>
              users.Some? &&
              exists i :: 0 <= i < |users.value| && users.value[i].email == request.email
                && (forall j :: 0 <= j < i ==> users.value[j].email != request.email)
                && users.value[i].passwordHash == hash(request.password)
    ensures Login(users, hash, request).isSuccess ==>
              var u := Login(users, hash, request).data.value;
              u in users.value && u.email == request.email && u.passwordHash == hash(request.password)
    ensures Login(users, hash, request).isSuccess ==>
              exists i :: 0 <= i < |users.value| && users.value[i].email == request.email
                && (forall j :: 0 <= j < i ==> users.value[j].email != request.email)
                && Login(users, hash, request).data == Some(users.value[i])
  {
    if users.Some? {
      var i := FirstWithEmail(users.value, request.email);
      if exists k :: 0 <= k < |users.value| && users.value[k].email == request.email
                && (forall j :: 0 <= j < k ==> users.value[j].email != request.email)
                && users.value[k].passwordHash == hash(request.password) {
        var k :| 0 <= k < |users.value| && users.value[k].email == request.email
                && (forall j :: 0 <= j < k ==> users.value[j].email != request.email)
                && users.value[k].passwordHash == hash(request.password);
        assert i == Some(k);
      }
    }
  }

  /** A user just added with a fresh e-mail logs in with the password they
      registered with, and gets their own record back. */
  lemma RegisteredUserCanLogIn(users: seq<User>, hash: Hasher, id: nat, email: string, password: string)
    requires !EmailTaken(users, email)
    ensures var user := User(id, email, hash(password));
            Login(Some(users + [user]), hash, LoginRequest(email, password))
              == Success(Some(user), Some(LOGGED_IN))
  {
    var user := User(id, email, hash(password));
    var stored := users + [user];
    assert stored[|users|].email == email;
    var i := FirstWithEmail(stored, email);
    assert forall k :: 0 <= k < |users| ==> stored[k] == users[k];
    assert i == Some(|users|);
  }

  /** Registering a user does not change how anyone with another e-mail
      logs in against an existing store. */
  lemma RegisterKeepsOtherLogins(users: seq<User>, hash: Hasher, user: User, request: LoginRequest)
    requires request.email != user.email
    ensures Login(Some(users + [user]), hash, request) == Login(Some(users), hash, request)
  {
    var stored := users + [user];
    var before := FirstWithEmail(users, request.email);
    var after := FirstWithEmail(stored, request.email);
    assert forall k :: 0 <= k < |users| ==> stored[k] == users[k];
    assert after == before;
  }
}
