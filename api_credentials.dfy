/** The handlers of src/api/credentials.ts. `userID` is the id withAuth
    attached; a body field is `None` when undefined or null. `v` is the
    configured cipher and `iv` the bytes randomBytes(16) gives the one
    encryption a request makes. */
module ApiCredentials {

  import opened Wrappers
  import opened JsString
  import opened Store
  import opened Http
  import Hex
  import Crypto
  import DbCredentials

  type Credential = DbCredentials.Credential

  const RequiredMessage := "Por favor, insira um nome para a credencial, login e senha"
  const CreateFailedMessage := "Não foi possível criar a credencial"
  const IDRequiredMessage := "Credential ID is required"
  const UpdateNotFoundMessage := "Credencial não encontrada"
  const DeleteNotFoundMessage := "Credential not found"
  const GetIDMessage := "ID inválido"
  const GetNotFoundMessage := "Não encontrado"
  const GetForbiddenMessage := "Credencial nao encontrada"

  function ExistsMessage(credentialName: string): string {
    "A credencial " + credentialName + " já existe"
  }

  /** No two of a user's credentials share a name. */
  ghost predicate UniqueNames(rows: map<Id, Credential>) {
    forall a, b :: a in rows && b in rows && a != b ==>
      !DbCredentials.Named(rows[b], rows[a].userID, rows[a].credentialName)
  }

  datatype CreateBody = CreateBody(
    groupName: Option<string>,
    credentialName: Option<string>,
    login: Option<string>,
    password: Option<string>)

  /** The checks of handlerCreateCredential in their order: all four fields
      (the group too, though it is not stored), then a name the user does not
      have yet; the password goes to the table encrypted. */
  function CreateParams(table: DbCredentials.CredentialsTable, v: Crypto.Vault, iv: Crypto.Iv, userID: Id,
                        body: CreateBody)
    : (r: Result<DbCredentials.CreateCredentialParams, ApiError>)
    reads table
    requires table.Valid()
    ensures !(Truthy(body.groupName) && Truthy(body.credentialName) && Truthy(body.login) && Truthy(body.password)) ==>
      r == Failure(BadRequest(RequiredMessage))
    ensures r.Success? <==>
      Truthy(body.groupName) && Truthy(body.credentialName) && Truthy(body.login) && Truthy(body.password)
      && !(exists id :: id in table.rows && DbCredentials.Named(table.rows[id], userID, body.credentialName.value))
    ensures r.Failure? ==> r.error.BadRequest?
    ensures r.Success? ==>
      r.value.userID == userID && r.value.credentialName == body.credentialName.value
      && r.value.login == body.login.value
    ensures r.Success? ==> Split(r.value.password, ':')[0] == Hex.Encode(iv)
  {
    if !Truthy(body.groupName) || !Truthy(body.credentialName) || !Truthy(body.login) || !Truthy(body.password) then
      Failure(BadRequest(RequiredMessage))
    else if table.GetByName(userID, body.credentialName.value).Some? then
      Failure(BadRequest(ExistsMessage(body.credentialName.value)))
    else
      Success(DbCredentials.CreateCredentialParams(body.credentialName.value, body.login.value,
        Crypto.Encrypt(v, iv, body.password.value), userID))
  }

  /** The stored password decrypts to the one the body gave. */
  lemma CreatedPasswordDecrypts(table: DbCredentials.CredentialsTable, v: Crypto.Vault, iv: Crypto.Iv, userID: Id,
                                body: CreateBody)
    requires table.Valid() && Crypto.Inverts(v)
    requires CreateParams(table, v, iv, userID, body).Success?
    ensures Reveal(v, CreateParams(table, v, iv, userID, body).value.password) == Success(body.password.value)
  {
    Crypto.DecryptEncrypt(v, iv, body.password.value);
  }

  /** handlerCreateCredential: 200 with the new credential, which holds the
      body's name and login, the password encrypted and the current time in
      both stamps; the read-back always finds it, so the 400 for a failed
      create never happens. */
  method HandlerCreateCredential(table: DbCredentials.CredentialsTable, v: Crypto.Vault, iv: Crypto.Iv, newID: Id,
                                 userID: Id, body: CreateBody)
    returns (r: Result<Reply<Credential>, ApiError>)
    requires table.Valid() && newID !in table.rows
    modifies table
    ensures table.Valid()
    ensures var checked := old(CreateParams(table, v, iv, userID, body));
      && (r.Failure? <==> checked.Failure?)
      && (r.Failure? ==> r.error == checked.error && table.rows == old(table.rows))
      && (r.Success? ==>
        r.value.status == 200 && table.rows == old(table.rows)[newID := r.value.body]
        && r.value.body == DbCredentials.Credential(newID, old(table.clock), old(table.clock),
          body.credentialName.value, body.login.value, Crypto.Encrypt(v, iv, body.password.value), userID))
    ensures old(UniqueNames(table.rows)) ==> UniqueNames(table.rows)
  {
    ghost var before := table.rows;
    var checked := CreateParams(table, v, iv, userID, body);
    if checked.Failure? {
      return Failure(checked.error);
    }
    var created := table.CreateCredential(newID, checked.value);
    r := if created.Some? then Success(Reply(200, created.value)) else Failure(BadRequest(CreateFailedMessage));
    assert table.rows == before[newID := created.value];
  }

  /** The credential the path names, when it is the user's: an empty id is
      a 400, and so is an unknown id or another user's credential, with
      `notFound`. */
  function Owned(rows: map<Id, Credential>, userID: Id, pathname: string, notFound: string)
    : (r: Result<Id, ApiError>)
    ensures PathID(pathname, IDRequiredMessage).Failure? ==> r == Failure(BadRequest(IDRequiredMessage))
    ensures r.Success? <==>
      PathID(pathname, IDRequiredMessage).Success?
      && LastSegment(pathname) in rows && rows[LastSegment(pathname)].userID == userID
    ensures PathID(pathname, IDRequiredMessage).Success? && r.Failure? ==> r == Failure(BadRequest(notFound))
    ensures r.Success? ==> r.value == LastSegment(pathname)
  {
    var id :- PathID(pathname, IDRequiredMessage);
    if id !in rows || rows[id].userID != userID then Failure(BadRequest(notFound)) else Success(id)
  }

  /** The update body: each field `None` when undefined. */
  datatype UpdateBody = UpdateBody(credentialName: Option<string>, login: Option<string>, password: Option<string>)

  function Given<T>(v: Option<T>): Patch<T> {
    match v
    case None => Keep
    case Some(x) => Put(x)
  }

  /** The params of handlerUpdateCredential as written: the password is
      passed on as the body gives it, not encrypted. */
  function UpdateParamsAsWritten(body: UpdateBody): (p: DbCredentials.UpdateCredentialParams)
    ensures p == DbCredentials.NoChange <==> body == UpdateBody(None, None, None)
    ensures forall c :: DbCredentials.Merge(c, p) == c.(credentialName := body.credentialName.GetOr(c.credentialName),
      login := body.login.GetOr(c.login), password := body.password.GetOr(c.password))
  {
    DbCredentials.UpdateCredentialParams(Given(body.credentialName), Given(body.login), Given(body.password))
  }

  /** A password set through the update as written is stored in the clear,
      and a get of that credential then fails in decrypt. */
  lemma PlainPasswordBreaksGet(c: Credential, v: Crypto.Vault)
    ensures var updated := DbCredentials.Merge(c, UpdateParamsAsWritten(UpdateBody(None, None, Some("secret"))));
      updated.password == "secret"
      && Reveal(v, updated.password) == Failure(Unexpected("Invalid encrypted text format. Expected iv:tag:cipher"))
  {
    var updated := DbCredentials.Merge(c, UpdateParamsAsWritten(UpdateBody(None, None, Some("secret"))));
    assert updated.password == "secret";
    assert forall i :: 0 <= i < |updated.password| ==> updated.password[i] != ':';
    SplitNoSeparator(updated.password, ':');
    assert |Split(updated.password, ':')| == 1;
  }

  /** The params as intended: only the fields the body defines, with a new
      password encrypted as create stores it. */
  function UpdateParams(v: Crypto.Vault, iv: Crypto.Iv, body: UpdateBody): (p: DbCredentials.UpdateCredentialParams)
    ensures p == DbCredentials.NoChange <==> body == UpdateBody(None, None, None)
    ensures p.credentialName == Given(body.credentialName) && p.login == Given(body.login)
    ensures p.password.Put? <==> body.password.Some?
  {
    DbCredentials.UpdateCredentialParams(Given(body.credentialName), Given(body.login),
      if body.password.Some? then Put(Crypto.Encrypt(v, iv, body.password.value)) else Keep)
  }

  /** After the intended update the row's password decrypts to the new one;
      without a new password it is the stored one as it was. */
  lemma UpdatedPasswordDecrypts(c: Credential, v: Crypto.Vault, iv: Crypto.Iv, body: UpdateBody)
    requires Crypto.Inverts(v)
    ensures body.password.Some? ==>
      Reveal(v, DbCredentials.Merge(c, UpdateParams(v, iv, body)).password) == Success(body.password.value)
    ensures body.password.None? ==> DbCredentials.Merge(c, UpdateParams(v, iv, body)).password == c.password
  {
    if body.password.Some? {
      Crypto.DecryptEncrypt(v, iv, body.password.value);
    }
  }

  /** What handlerUpdateCredential does once it has its params: the id and
      the owner are checked, then `params` is written and the answer is 200
      with `{changes}`: one when a field was given, zero when none was. */
  method UpdateWith(table: DbCredentials.CredentialsTable, userID: Id, pathname: string,
                    params: DbCredentials.UpdateCredentialParams)
    returns (r: Result<Reply<nat>, ApiError>)
    requires table.Valid()
    modifies table
    ensures table.Valid()
    ensures var checked := Owned(old(table.rows), userID, pathname, UpdateNotFoundMessage);
      && (r.Failure? <==> checked.Failure?)
      && (r.Failure? ==> r.error == checked.error && table.rows == old(table.rows))
    ensures r.Success? ==> var id := LastSegment(pathname);
      && r.value.status == 200
      && (params == DbCredentials.NoChange ==> r.value.body == 0 && table.rows == old(table.rows))
      && (params != DbCredentials.NoChange ==>
        r.value.body == 1
        && table.rows == old(table.rows)[id := DbCredentials.Merge(old(table.rows)[id], params).(updatedAt := old(table.clock))])
  {
    var checked := Owned(table.rows, userID, pathname, UpdateNotFoundMessage);
    if checked.Failure? {
      return Failure(checked.error);
    }
    var changes := table.UpdateCredential(checked.value, userID, params);
    r := Success(Reply(200, changes));
  }

  /** handlerUpdateCredential as written: a new password is stored as the
      body gives it, not encrypted. */
  method HandlerUpdateCredential(table: DbCredentials.CredentialsTable, userID: Id, pathname: string, body: UpdateBody)
    returns (r: Result<Reply<nat>, ApiError>)
    requires table.Valid()
    modifies table
    ensures table.Valid()
    ensures var checked := Owned(old(table.rows), userID, pathname, UpdateNotFoundMessage);
      && (r.Failure? <==> checked.Failure?)
      && (r.Failure? ==> r.error == checked.error && table.rows == old(table.rows))
    ensures r.Success? ==> var id, p := LastSegment(pathname), UpdateParamsAsWritten(body);
      && r.value.status == 200
      && (p == DbCredentials.NoChange ==> r.value.body == 0 && table.rows == old(table.rows))
      && (p != DbCredentials.NoChange ==>
        r.value.body == 1
        && table.rows == old(table.rows)[id := DbCredentials.Merge(old(table.rows)[id], p).(updatedAt := old(table.clock))])
    ensures r.Success? && body.password.Some? ==> table.rows[LastSegment(pathname)].password == body.password.value
  {
    ghost var before := table.rows;
    r := UpdateWith(table, userID, pathname, UpdateParamsAsWritten(body));
    if r.Success? && body.password.Some? {
      PasswordAsGiven(before[LastSegment(pathname)], body);
    }
  }

  /** The update as written puts a given password into the row unchanged. */
  lemma PasswordAsGiven(c: Credential, body: UpdateBody)
    requires body.password.Some?
    ensures DbCredentials.Merge(c, UpdateParamsAsWritten(body)).password == body.password.value
  {
  }

  /** A stored password without a `:` is not an envelope: a get of that
      credential fails with decrypt's format error. This is what a get
      answers after the update as written stored a plain password. */
  lemma GetAfterPlainUpdate(table: DbCredentials.CredentialsTable, v: Crypto.Vault, userID: Id, id: Id)
    requires id != "" && id in table.rows && table.rows[id].userID == userID
    requires ':' !in table.rows[id].password
    ensures HandlerGetCredentialByID(table, v, userID, Some(id)) == Failure(CryptoThrown(Crypto.InvalidFormat))
  {
    SplitNoSeparator(table.rows[id].password, ':');
  }

  /** handlerUpdateCredential as intended: a new password is stored
      encrypted, so a later get gives it back. */
  method HandlerUpdateCredentialIntended(table: DbCredentials.CredentialsTable, v: Crypto.Vault, iv: Crypto.Iv,
                                         userID: Id, pathname: string, body: UpdateBody)
    returns (r: Result<Reply<nat>, ApiError>)
    requires table.Valid()
    modifies table
    ensures table.Valid()
    ensures var checked := Owned(old(table.rows), userID, pathname, UpdateNotFoundMessage);
      && (r.Failure? <==> checked.Failure?)
      && (r.Failure? ==> r.error == checked.error && table.rows == old(table.rows))
    ensures r.Success? ==> var id, p := LastSegment(pathname), UpdateParams(v, iv, body);
      && r.value.status == 200
      && (p == DbCredentials.NoChange ==> r.value.body == 0 && table.rows == old(table.rows))
      && (p != DbCredentials.NoChange ==>
        r.value.body == 1
        && table.rows == old(table.rows)[id := DbCredentials.Merge(old(table.rows)[id], p).(updatedAt := old(table.clock))])
    ensures r.Success? && body.password.Some? && Crypto.Inverts(v) ==>
      Reveal(v, table.rows[LastSegment(pathname)].password) == Success(body.password.value)
  {
    ghost var before := table.rows;
    r := UpdateWith(table, userID, pathname, UpdateParams(v, iv, body));
    if r.Success? && body.password.Some? && Crypto.Inverts(v) {
      UpdatedPasswordDecrypts(before[LastSegment(pathname)], v, iv, body);
    }
  }

  /** handlerGetCredentialByID: the id comes from the route parameters; an
      empty one, an unknown one and another user's credential are each a
      400 with its own message; otherwise 200 with the password decrypted,
      or what decrypt throws. */
  function HandlerGetCredentialByID(table: DbCredentials.CredentialsTable, v: Crypto.Vault, userID: Id,
                                    credentialID: Option<string>)
    : (r: Result<Reply<Credential>, ApiError>)
    reads table
    ensures !Truthy(credentialID) ==> r == Failure(BadRequest(GetIDMessage))
    ensures Truthy(credentialID) && credentialID.value !in table.rows ==> r == Failure(BadRequest(GetNotFoundMessage))
    ensures Truthy(credentialID) && credentialID.value in table.rows && table.rows[credentialID.value].userID != userID ==>
      r == Failure(BadRequest(GetForbiddenMessage))
    ensures r.Success? <==>
      Truthy(credentialID) && credentialID.value in table.rows && table.rows[credentialID.value].userID == userID
      && Crypto.Decrypt(v, table.rows[credentialID.value].password).Success?
    ensures r.Success? ==> var c := table.rows[credentialID.value];
      r.value.status == 200 && r.value.body == c.(password := Crypto.Decrypt(v, c.password).value)
  {
    if !Truthy(credentialID) then Failure(BadRequest(GetIDMessage))
    else
      var result := table.Get(credentialID.value);
      if result.None? then Failure(BadRequest(GetNotFoundMessage))
      else if result.value.userID != userID then Failure(BadRequest(GetForbiddenMessage))
      else
        var password :- Reveal(v, result.value.password);
        Success(Reply(200, result.value.(password := password)))
  }

  /** A credential stored by the create handler comes back with the
      password the body gave. */
  lemma GetCreated(table: DbCredentials.CredentialsTable, v: Crypto.Vault, iv: Crypto.Iv, userID: Id, body: CreateBody,
                   c: Credential)
    requires table.Valid() && Crypto.Inverts(v)
    requires CreateParams(table, v, iv, userID, body).Success?
    requires c.id in table.rows && table.rows[c.id] == c && c.id != "" && c.userID == userID
    requires c.password == CreateParams(table, v, iv, userID, body).value.password
    ensures HandlerGetCredentialByID(table, v, userID, Some(c.id)) == Success(Reply(200, c.(password := body.password.value)))
  {
    CreatedPasswordDecrypts(table, v, iv, userID, body);
  }

  /** handlerDeleteCredential: the id and the owner are checked, the row
      goes, and the answer is 204 with an empty object. */
  method HandlerDeleteCredential(table: DbCredentials.CredentialsTable, userID: Id, pathname: string)
    returns (r: Result<Reply<()>, ApiError>)
    requires table.Valid()
    modifies table
    ensures table.Valid()
    ensures var checked := Owned(old(table.rows), userID, pathname, DeleteNotFoundMessage);
      && (r.Failure? <==> checked.Failure?)
      && (r.Failure? ==> r.error == checked.error && table.rows == old(table.rows))
      && (r.Success? ==> r.value.status == 204 && table.rows == old(table.rows) - {checked.value})
  {
    var checked := Owned(table.rows, userID, pathname, DeleteNotFoundMessage);
    if checked.Failure? {
      return Failure(checked.error);
    }
    ghost var before := table.rows;
    var changes := table.DeleteCredential(userID, checked.value);
    assert table.rows == before - {checked.value};
    r := Success(Reply(204, ()));
  }
}
