/** handlerCreateUser of src/api/users.ts, over the users table it writes
    through getUserByEmail and createUser. The password hash (argon2) is a
    function supplied by the caller. */
module ApiUsers {

  import opened Wrappers
  import opened JsString
  import opened Store
  import opened Http

  datatype User = User(id: Id, createdAt: nat, updatedAt: nat, email: string, password: string)

  /** UserResponse: the row without its password. */
  datatype UserResponse = UserResponse(id: Id, createdAt: nat, updatedAt: nat, email: string)

  /** No two users share an email. */
  ghost predicate UniqueEmails(rows: map<Id, User>) {
    forall a, b :: a in rows && b in rows && a != b ==> rows[a].email != rows[b].email
  }

  class UsersTable {
    var rows: map<Id, User>
    var clock: nat

    ghost predicate Valid()
      reads this
    {
      forall id :: id in rows ==> rows[id].id == id && rows[id].createdAt < clock
    }

    constructor ()
      ensures Valid() && rows == map[] && clock == 0
    {
      rows, clock := map[], 0;
    }

    /** getUserByEmail, as the handler tests it: whether a user has it. */
    predicate HasEmail(email: string)
      reads this
    {
      exists id :: id in rows && rows[id].email == email
    }

    /** createUser: one new row under `newID`, stamped now, returned as read
        back by that id. */
    method CreateUser(newID: Id, email: string, password: string) returns (r: Option<User>)
      requires Valid() && newID !in rows
      modifies this
      ensures Valid()
      ensures r == Some(User(newID, old(clock), old(clock), email, password))
      ensures rows == old(rows)[newID := r.value]
    {
      var u := User(newID, clock, clock, email, password);
      rows := rows[newID := u];
      clock := clock + 1;
      r := if newID in rows then Some(rows[newID]) else None;
    }
  }

  /** `\w` of a JavaScript regular expression without the u flag. */
  predicate IsWordChar(c: char) {
    ('a' <= c <= 'z') || ('A' <= c <= 'Z') || ('0' <= c <= '9') || c == '_'
  }

  /** Position `i` of `s` is an '@' with a word character on each side. */
  predicate AtBetweenWords(s: string, i: int) {
    1 <= i < |s| - 1 && s[i] == '@' && IsWordChar(s[i - 1]) && IsWordChar(s[i + 1])
  }

  /** `email.match(/\w+@\w+/g)` is non-null: the regular expression matches
      somewhere, which is exactly when some '@' has a word character right
      before it and right after it. */
  function IsEmailValid(email: string): (b: bool)
    ensures b <==> exists i :: AtBetweenWords(email, i)
    decreases |email|
  {
    if |email| < 3 then false
    else if AtBetweenWords(email, 1) then true
    else
      var rest := IsEmailValid(email[1..]);
      assert forall i :: AtBetweenWords(email[1..], i) <==> AtBetweenWords(email, i + 1);
      assert forall i :: AtBetweenWords(email, i) ==> i == 1 || AtBetweenWords(email[1..], i - 1);
      rest
  }

  lemma ValidEmails()
    ensures IsEmailValid("ana@ex.com") && IsEmailValid("a@b")
  {
    assert AtBetweenWords("ana@ex.com", 3);
    assert AtBetweenWords("a@b", 1);
  }

  lemma InvalidEmails()
    ensures !IsEmailValid("ana@") && !IsEmailValid("ana@.com")
  {
    forall i ensures !AtBetweenWords("ana@", i) {
      if 1 <= i < 3 {
        assert "ana@"[i] != '@';
      }
    }
    forall i ensures !AtBetweenWords("ana@.com", i) {
      if 1 <= i < 7 && i != 3 {
        assert "ana@.com"[i] != '@';
      }
    }
  }

  const InvalidMessage := "Por favor, insira um e-mail válido e uma senha"
  const CreateFailedMessage := "Não foi possível criar o usuário"

  function InUseMessage(email: string): string {
    "O e-mail " + email + " já está em uso"
  }

  datatype CreateBody = CreateBody(email: Option<string>, password: Option<string>)

  /** The checks of handlerCreateUser in their order: both fields, then the
      address's shape (with the same message), then an address no user has. */
  function CheckCreate(table: UsersTable, body: CreateBody): (r: Outcome<ApiError>)
    reads table
    ensures !(Truthy(body.email) && Truthy(body.password)) ==> r == Fail(BadRequest(InvalidMessage))
    ensures Truthy(body.email) && Truthy(body.password) && !IsEmailValid(body.email.value) ==>
      r == Fail(BadRequest(InvalidMessage))
    ensures r.Pass? <==>
      Truthy(body.email) && Truthy(body.password) && IsEmailValid(body.email.value) && !table.HasEmail(body.email.value)
    ensures r.Fail? ==> r.error.BadRequest?
  {
    if !Truthy(body.email) || !Truthy(body.password) then Fail(BadRequest(InvalidMessage))
    else if !IsEmailValid(body.email.value) then Fail(BadRequest(InvalidMessage))
    else if table.HasEmail(body.email.value) then Fail(BadRequest(InUseMessage(body.email.value)))
    else Pass
  }

  /** The response of a new user: its id, stamps and email, no password. */
  function Response(u: User): (r: UserResponse)
    ensures r.id == u.id && r.email == u.email && r.createdAt == u.createdAt && r.updatedAt == u.updatedAt
  {
    UserResponse(u.id, u.createdAt, u.updatedAt, u.email)
  }

  /** handlerCreateUser: after the checks the user is stored with the hash
      of the password and answered with 200 and no password; emails stay
      distinct. */
  method HandlerCreateUser(table: UsersTable, hashPassword: string -> string, newID: Id, body: CreateBody)
    returns (r: Result<Reply<UserResponse>, ApiError>)
    requires table.Valid() && newID !in table.rows
    modifies table
    ensures table.Valid()
    ensures var checked := old(CheckCreate(table, body));
      && (r.Failure? <==> checked.Fail?)
      && (r.Failure? ==> r.error == checked.error && table.rows == old(table.rows))
      && (r.Success? ==>
        r.value.status == 200 && r.value.body.id == newID && r.value.body.email == body.email.value
        && newID in table.rows && table.rows == old(table.rows)[newID := table.rows[newID]]
        && table.rows[newID].email == body.email.value
        && table.rows[newID].password == hashPassword(body.password.value)
        && r.value.body == Response(table.rows[newID]))
    ensures old(UniqueEmails(table.rows)) ==> UniqueEmails(table.rows)
  {
    var checked := CheckCreate(table, body);
    if checked.Fail? {
      return Failure(checked.error);
    }
    var hashed := hashPassword(body.password.value);
    var result := table.CreateUser(newID, body.email.value, hashed);
    r := if result.Some? then Success(Reply(200, Response(result.value))) else Failure(BadRequest(CreateFailedMessage));
  }
}
