/** The handlers of src/api/extensions.ts. src/db/extensions.ts leaves the
    queries they call empty or undefined, so the table here is the one the
    handlers expect, behaving as the other tables do: rows by id, oldest
    first, a counter for CURRENT_TIMESTAMP, and deletes and updates scoped to
    the user. A body field is `None` when undefined or null; a nullable one
    of the update body is `Some(None)` when null. */
module ApiExtensions {

  import opened Wrappers
  import opened JsString
  import opened Store
  import opened Http
  import Crypto

  datatype Extension = Extension(
    id: Id,
    createdAt: nat,
    updatedAt: nat,
    extensionName: string,
    description: Option<string>,
    login: Option<string>,
    password: Option<string>,
    pin: Option<string>,
    extensionURL: Option<string>,
    userID: Id,
    isActive: bool)

  function CreatedAt(e: Extension): nat { e.createdAt }

  /** CreateExtensionParams of the handler. */
  datatype CreateExtensionParams = CreateExtensionParams(
    extensionName: string,
    description: Option<string>,
    login: Option<string>,
    password: Option<string>,
    pin: Option<string>,
    extensionURL: Option<string>,
    userID: Id,
    isActive: bool)

  /** UpdateExtensionParams: `Keep` for each field left undefined. */
  datatype UpdateExtensionParams = UpdateExtensionParams(
    extensionName: Patch<string>,
    description: Patch<Option<string>>,
    login: Patch<Option<string>>,
    password: Patch<Option<string>>,
    pin: Patch<Option<string>>,
    extensionURL: Patch<Option<string>>,
    isActive: Patch<bool>)

  const NoChange := UpdateExtensionParams(Keep, Keep, Keep, Keep, Keep, Keep, Keep)

  function Merge(e: Extension, p: UpdateExtensionParams): Extension {
    e.(extensionName := p.extensionName.Or(e.extensionName),
       description := p.description.Or(e.description),
       login := p.login.Or(e.login),
       password := p.password.Or(e.password),
       pin := p.pin.Or(e.pin),
       extensionURL := p.extensionURL.Or(e.extensionURL),
       isActive := p.isActive.Or(e.isActive))
  }

  /** The row passes `WHERE user_id = ? AND extension_name = ?`. */
  predicate Named(e: Extension, userID: Id, extensionName: string) {
    e.userID == userID && e.extensionName == extensionName
  }

  /** No two of a user's extensions share a non-empty name. An update may
      set the empty name without a check, so the empty name is exempt. */
  ghost predicate UniqueNames(rows: map<Id, Extension>) {
    forall a, b :: a in rows && b in rows && a != b && rows[a].extensionName != "" ==>
      !Named(rows[b], rows[a].userID, rows[a].extensionName)
  }

  ghost predicate Wellformed(order: seq<Id>, rows: map<Id, Extension>, clock: nat) {
    Chronicle(order, rows, CreatedAt)
    && forall id :: id in rows ==> rows[id].id == id && rows[id].createdAt < clock && rows[id].updatedAt < clock
  }

  /** The extensions store as the handlers use it. The repository's own
      queries for it are stubs or a malformed INSERT, so this is the store
      the handlers expect, not a transcription of them. */
  class ExtensionsTable {
    var rows: map<Id, Extension>
    var order: seq<Id>
    var clock: nat

    ghost predicate Valid()
      reads this
    {
      Wellformed(order, rows, clock)
    }

    constructor ()
      ensures Valid() && rows == map[] && clock == 0
    {
      rows, order, clock := map[], [], 0;
    }

    /** getExtensionByID. */
    function Get(id: Id): (r: Option<Extension>)
      reads this
      ensures r.Some? <==> id in rows
      ensures r.Some? ==> r.value == rows[id]
    {
      if id in rows then Some(rows[id]) else None
    }

    /** getExtensionByName, as the handlers test it: whether the user has an
        extension so named. */
    predicate HasName(userID: Id, extensionName: string)
      reads this
    {
      exists id :: id in rows && Named(rows[id], userID, extensionName)
    }

    /** createExtension as handlerCreateExtension expects it: one new row
        under `newID` holding the parameters it built, stamped now. */
    method CreateExtension(newID: Id, params: CreateExtensionParams) returns (e: Extension)
      requires Valid() && newID !in rows
      modifies this
      ensures Valid()
      ensures e == Extension(newID, old(clock), old(clock), params.extensionName, params.description, params.login,
        params.password, params.pin, params.extensionURL, params.userID, params.isActive)
      ensures rows == old(rows)[newID := e]
    {
      e := Extension(newID, clock, clock, params.extensionName, params.description, params.login,
        params.password, params.pin, params.extensionURL, params.userID, params.isActive);
      ChronicleInsert(order, rows, CreatedAt, newID, e);
      rows := rows[newID := e];
      order := order + [newID];
      clock := clock + 1;
    }

    /** listExtensionsByUserID: the user's rows, oldest first. */
    function ListByUser(userID: Id): (r: seq<Extension>)
      reads this
      requires Valid()
      ensures forall i :: 0 <= i < |r| ==> r[i].userID == userID && r[i] in rows.Values
      ensures forall id :: id in rows && rows[id].userID == userID ==> rows[id] in r
    {
      var keep := (e: Extension) => e.userID == userID;
      OldestListed(order, rows, keep, CreatedAt);
      Oldest(order, rows, keep)
    }

    /** updateExtension: the row with this id and this user gets the given
        fields and a new `updated_at`, and is returned; nothing changes when
        there is no such row or no field is given. */
    method UpdateExtension(id: Id, userID: Id, params: UpdateExtensionParams) returns (r: Option<Extension>)
      requires Valid()
      modifies this
      ensures Valid()
      ensures r.Some? <==> id in old(rows) && old(rows)[id].userID == userID
      ensures r.None? || params == NoChange ==> rows == old(rows)
      ensures r.Some? && params != NoChange ==> rows == old(rows)[id := Merge(old(rows)[id], params).(updatedAt := old(clock))]
      ensures r.Some? ==> id in rows && r.value == rows[id]
    {
      if id !in rows || rows[id].userID != userID {
        return None;
      }
      if params != NoChange {
        var updated := Merge(rows[id], params).(updatedAt := clock);
        ChronicleRestamp(order, rows, rows[id := updated], CreatedAt);
        rows := rows[id := updated];
        clock := clock + 1;
      }
      r := Some(rows[id]);
    }

    /** deleteExtension: removes the row only when it has this id and this
        user, and says whether one went. */
    method DeleteExtension(id: Id, userID: Id) returns (deleted: bool)
      requires Valid()
      modifies this
      ensures Valid()
      ensures deleted <==> id in old(rows) && old(rows)[id].userID == userID
      ensures forall k :: k in rows <==> k in old(rows) && !(k == id && old(rows)[k].userID == userID)
      ensures forall k :: k in rows ==> rows[k] == old(rows)[k]
    {
      var keep := (e: Extension) => !(e.id == id && e.userID == userID);
      var removed;
      order, rows, removed := DeleteWhere(order, rows, keep, CreatedAt);
      deleted := removed > 0;
    }
  }

  const NameRequiredMessage := "extensionName is required"
  const NameExistsMessage := "Extension with this name already exists"
  const IDRequiredMessage := "Extension ID is required"
  const NotFoundMessage := "Extension not found"
  const DeleteFailedMessage := "Failed to delete extension"

  datatype CreateBody = CreateBody(
    extensionName: Option<string>,
    description: Option<string>,
    login: Option<string>,
    password: Option<string>,
    pin: Option<string>,
    extensionURL: Option<string>,
    isActive: Option<Json>)

  /** The secret as stored: encrypted when the body gives a non-empty one,
      otherwise none. */
  function Seal(v: Crypto.Vault, iv: Crypto.Iv, secret: Option<string>): (r: Option<string>)
    ensures r.Some? <==> Truthy(secret)
  {
    if Truthy(secret) then Some(Crypto.Encrypt(v, iv, secret.value)) else None
  }

  /** The checks and params of handlerCreateExtension: a name, one the user
      does not have yet, the secrets sealed, the flag active unless the body
      gives a falsy one. */
  function CreateParams(table: ExtensionsTable, v: Crypto.Vault, ivPassword: Crypto.Iv, ivPin: Crypto.Iv, userID: Id,
                        body: CreateBody)
    : (r: Result<CreateExtensionParams, ApiError>)
    reads table
    ensures !Truthy(body.extensionName) ==> r == Failure(BadRequest(NameRequiredMessage))
    ensures Truthy(body.extensionName) && table.HasName(userID, body.extensionName.value) ==>
      r == Failure(BadRequest(NameExistsMessage))
    ensures r.Success? <==> Truthy(body.extensionName) && !table.HasName(userID, body.extensionName.value)
    ensures r.Success? ==> var p := r.value;
      && p.extensionName == body.extensionName.value && p.userID == userID
      && p.description == body.description && p.login == body.login && p.extensionURL == body.extensionURL
      && p.password == Seal(v, ivPassword, body.password) && p.pin == Seal(v, ivPin, body.pin)
      && p.isActive == (body.isActive.None? || JsonTruthy(body.isActive))
  {
    if !Truthy(body.extensionName) then Failure(BadRequest(NameRequiredMessage))
    else if table.HasName(userID, body.extensionName.value) then Failure(BadRequest(NameExistsMessage))
    else
      Success(CreateExtensionParams(body.extensionName.value, body.description, body.login,
        Seal(v, ivPassword, body.password), Seal(v, ivPin, body.pin), body.extensionURL, userID,
        if body.isActive.None? then true else JsonTruthy(body.isActive)))
  }

  /** handlerCreateExtension: 201 with the new extension, which holds the
      body's fields, the secrets sealed, the flag active unless given, and
      the current time in both stamps. */
  method HandlerCreateExtension(table: ExtensionsTable, v: Crypto.Vault, ivPassword: Crypto.Iv, ivPin: Crypto.Iv,
                                newID: Id, userID: Id, body: CreateBody)
    returns (r: Result<Reply<Extension>, ApiError>)
    requires table.Valid() && newID !in table.rows
    modifies table
    ensures table.Valid()
    ensures var checked := old(CreateParams(table, v, ivPassword, ivPin, userID, body));
      && (r.Failure? <==> checked.Failure?)
      && (r.Failure? ==> r.error == checked.error && table.rows == old(table.rows))
      && (r.Success? ==>
        r.value.status == 201 && table.rows == old(table.rows)[newID := r.value.body]
        && r.value.body == Extension(newID, old(table.clock), old(table.clock), body.extensionName.value,
          body.description, body.login, Seal(v, ivPassword, body.password), Seal(v, ivPin, body.pin),
          body.extensionURL, userID, body.isActive.None? || JsonTruthy(body.isActive)))
    ensures old(UniqueNames(table.rows)) ==> UniqueNames(table.rows)
  {
    var checked := CreateParams(table, v, ivPassword, ivPin, userID, body);
    if checked.Failure? {
      return Failure(checked.error);
    }
    var e := table.CreateExtension(newID, checked.value);
    r := Success(Reply(201, e));
  }

  /** handlerListExtensions: 200 with the user's extensions. */
  function HandlerListExtensions(table: ExtensionsTable, userID: Id): (r: Reply<seq<Extension>>)
    reads table
    requires table.Valid()
    ensures r.status == 200 && r.body == table.ListByUser(userID)
    ensures forall i :: 0 <= i < |r.body| ==> r.body[i].userID == userID
  {
    Reply(200, table.ListByUser(userID))
  }

  function OwnerOf(e: Extension): Id { e.userID }

  /** The extension the path names, when it is the user's: 400, then 404,
      then 403. */
  function Owned(rows: map<Id, Extension>, userID: Id, pathname: string): Result<Id, ApiError> {
    Locate(rows, OwnerOf, userID, pathname, IDRequiredMessage, NotFound(NotFoundMessage))
  }

  /** A stored secret as the get handler answers it: decrypted when there
      is one. */
  function Open(v: Crypto.Vault, secret: Option<string>): (r: Result<Option<string>, ApiError>)
    ensures secret.None? ==> r == Success(None)
    ensures secret.Some? ==>
      (r.Success? <==> Crypto.Decrypt(v, secret.value).Success?)
      && (r.Success? ==> r.value == Some(Crypto.Decrypt(v, secret.value).value))
  {
    match secret
    case None => Success(None)
    case Some(text) =>
      var plain :- Reveal(v, text);
      Success(Some(plain))
  }

  /** A secret sealed on create opens to what the body gave, or to none. */
  lemma OpenSeal(v: Crypto.Vault, iv: Crypto.Iv, secret: Option<string>)
    requires Crypto.Inverts(v)
    ensures Open(v, Seal(v, iv, secret)) == Success(OrNull(secret))
  {
    if Truthy(secret) {
      Crypto.DecryptEncrypt(v, iv, secret.value);
    }
  }

  /** handlerGetExtensionByID: after the checks, 200 with the password and
      then the PIN decrypted, or what decrypt throws. */
  function HandlerGetExtensionByID(table: ExtensionsTable, v: Crypto.Vault, userID: Id, pathname: string)
    : (r: Result<Reply<Extension>, ApiError>)
    reads table
    ensures Owned(table.rows, userID, pathname).Failure? ==> r == Failure(Owned(table.rows, userID, pathname).error)
    ensures r.Success? <==>
      Owned(table.rows, userID, pathname).Success?
      && Open(v, table.rows[LastSegment(pathname)].password).Success?
      && Open(v, table.rows[LastSegment(pathname)].pin).Success?
    ensures r.Success? ==> var e := table.rows[LastSegment(pathname)];
      r.value == Reply(200, e.(password := Open(v, e.password).value, pin := Open(v, e.pin).value))
    ensures r.Failure? && Owned(table.rows, userID, pathname).Success? ==> r.error.Unexpected?
  {
    var id :- Owned(table.rows, userID, pathname);
    var e := table.rows[id];
    var password :- Open(v, e.password);
    var pin :- Open(v, e.pin);
    Success(Reply(200, e.(password := password, pin := pin)))
  }

  /** An extension as the create handler stored it comes back with the
      body's password and PIN, or none where the body gave none. */
  lemma GetCreated(table: ExtensionsTable, v: Crypto.Vault, ivPassword: Crypto.Iv, ivPin: Crypto.Iv, userID: Id,
                   pathname: string, body: CreateBody)
    requires Crypto.Inverts(v)
    requires Owned(table.rows, userID, pathname).Success?
    requires var e := table.rows[LastSegment(pathname)];
      e.password == Seal(v, ivPassword, body.password) && e.pin == Seal(v, ivPin, body.pin)
    ensures var e := table.rows[LastSegment(pathname)];
      HandlerGetExtensionByID(table, v, userID, pathname)
        == Success(Reply(200, e.(password := OrNull(body.password), pin := OrNull(body.pin))))
  {
    OpenSeal(v, ivPassword, body.password);
    OpenSeal(v, ivPin, body.pin);
  }

  datatype UpdateBody = UpdateBody(
    extensionName: Option<string>,
    description: Option<Option<string>>,
    login: Option<Option<string>>,
    password: Option<Option<string>>,
    pin: Option<Option<string>>,
    extensionURL: Option<Option<string>>,
    isActive: Option<Json>)

  /** The name check of handlerUpdateExtension: only a non-empty name other
      than the current one is looked up. */
  function CheckRename(table: ExtensionsTable, userID: Id, existing: Extension, body: UpdateBody): (r: Outcome<ApiError>)
    reads table
    ensures r.Fail? <==>
      Truthy(body.extensionName) && body.extensionName.value != existing.extensionName
      && table.HasName(userID, body.extensionName.value)
    ensures r.Fail? ==> r.error == BadRequest(NameExistsMessage)
  {
    if Truthy(body.extensionName) && body.extensionName.value != existing.extensionName
      && table.HasName(userID, body.extensionName.value)
    then Fail(BadRequest(NameExistsMessage))
    else Pass
  }

  function Given<T>(v: Option<T>): Patch<T> {
    match v
    case None => Keep
    case Some(x) => Put(x)
  }

  /** The params of handlerUpdateExtension as written: the password and the
      PIN are passed on as the body gives them, not encrypted. */
  function UpdateParamsAsWritten(body: UpdateBody): (p: UpdateExtensionParams)
    ensures p == NoChange <==> body == UpdateBody(None, None, None, None, None, None, None)
    ensures p.password == Given(body.password) && p.pin == Given(body.pin)
    ensures p.extensionName == Given(body.extensionName) && p.description == Given(body.description)
      && p.login == Given(body.login) && p.extensionURL == Given(body.extensionURL)
    ensures p.isActive.Put? <==> body.isActive.Some?
    ensures p.isActive.Put? ==> p.isActive.value == JsonTruthy(body.isActive)
  {
    UpdateExtensionParams(Given(body.extensionName), Given(body.description), Given(body.login),
      Given(body.password), Given(body.pin), Given(body.extensionURL),
      if body.isActive.Some? then Put(JsonTruthy(body.isActive)) else Keep)
  }

  /** A PIN set through the update as written is stored in the clear, and a
      get of that extension then fails in decrypt. */
  lemma PlainPinBreaksGet(e: Extension, v: Crypto.Vault)
    ensures var updated := Merge(e, UpdateParamsAsWritten(UpdateBody(None, None, None, None, Some(Some("1234")), None, None)));
      updated.pin == Some("1234")
      && Open(v, updated.pin) == Failure(Unexpected("Invalid encrypted text format. Expected iv:tag:cipher"))
  {
    var s := "1234";
    assert forall i :: 0 <= i < |s| ==> s[i] != ':';
    SplitNoSeparator(s, ':');
  }

  /** A new secret as intended: encrypted when given and not null. */
  function Reseal(v: Crypto.Vault, iv: Crypto.Iv, secret: Option<Option<string>>): (p: Patch<Option<string>>)
    ensures p.Put? <==> secret.Some?
    ensures p.Put? ==> (p.value.Some? <==> secret.value.Some?)
  {
    match secret
    case None => Keep
    case Some(None) => Put(None)
    case Some(Some(text)) => Put(Some(Crypto.Encrypt(v, iv, text)))
  }

  /** The params as intended: only the fields the body defines, the flag by
      its truthiness, and a new password or PIN encrypted as create stores
      them. */
  function UpdateParams(v: Crypto.Vault, ivPassword: Crypto.Iv, ivPin: Crypto.Iv, body: UpdateBody)
    : (p: UpdateExtensionParams)
    ensures p == NoChange <==> body == UpdateBody(None, None, None, None, None, None, None)
    ensures p.extensionName == Given(body.extensionName) && p.description == Given(body.description)
      && p.login == Given(body.login) && p.extensionURL == Given(body.extensionURL)
    ensures p.isActive.Put? <==> body.isActive.Some?
    ensures p.isActive.Put? ==> p.isActive.value == JsonTruthy(body.isActive)
  {
    UpdateExtensionParams(Given(body.extensionName), Given(body.description), Given(body.login),
      Reseal(v, ivPassword, body.password), Reseal(v, ivPin, body.pin), Given(body.extensionURL),
      if body.isActive.Some? then Put(JsonTruthy(body.isActive)) else Keep)
  }

  /** After the intended update a given password and PIN open to the new
      values, and secrets not given are kept as stored. */
  lemma UpdatedSecretsOpen(e: Extension, v: Crypto.Vault, ivPassword: Crypto.Iv, ivPin: Crypto.Iv, body: UpdateBody)
    requires Crypto.Inverts(v)
    ensures var u := Merge(e, UpdateParams(v, ivPassword, ivPin, body));
      && (body.password.Some? ==> Open(v, u.password) == Success(body.password.value))
      && (body.pin.Some? ==> Open(v, u.pin) == Success(body.pin.value))
      && (body.password.None? ==> u.password == e.password)
      && (body.pin.None? ==> u.pin == e.pin)
  {
    if body.password.Some? && body.password.value.Some? {
      Crypto.DecryptEncrypt(v, ivPassword, body.password.value.value);
    }
    if body.pin.Some? && body.pin.value.Some? {
      Crypto.DecryptEncrypt(v, ivPin, body.pin.value.value);
    }
  }

  /** What handlerUpdateExtension does once it has its params: 400, 404,
      403, then the name check, then the user's extension gets `params` and
      is answered with 200. A rename keeps the user's non-empty names
      distinct. */
  method UpdateWith(table: ExtensionsTable, userID: Id, pathname: string, body: UpdateBody, params: UpdateExtensionParams)
    returns (r: Result<Reply<Extension>, ApiError>)
    requires table.Valid() && params.extensionName == Given(body.extensionName)
    modifies table
    ensures table.Valid()
    ensures var checked := Owned(old(table.rows), userID, pathname);
      && (checked.Failure? ==> r == Failure(checked.error))
      && (checked.Success? ==>
        (r.Failure? <==> old(CheckRename(table, userID, table.rows[checked.value], body)).Fail?))
    ensures r.Failure? ==> table.rows == old(table.rows)
    ensures r.Success? ==> var id := LastSegment(pathname);
      && r.value.status == 200 && id in table.rows && r.value.body == table.rows[id]
      && (params == NoChange ==> table.rows == old(table.rows))
      && (params != NoChange ==>
        table.rows == old(table.rows)[id := Merge(old(table.rows)[id], params).(updatedAt := old(table.clock))])
    ensures old(UniqueNames(table.rows)) ==> UniqueNames(table.rows)
  {
    var checked := Owned(table.rows, userID, pathname);
    if checked.Failure? {
      return Failure(checked.error);
    }
    var rename := CheckRename(table, userID, table.rows[checked.value], body);
    if rename.Fail? {
      return Failure(rename.error);
    }
    ghost var before := table.rows;
    var updated := table.UpdateExtension(checked.value, userID, params);
    RenameKeepsNamesUnique(before, checked.value, params, table.rows);
    r := Success(Reply(200, updated.value));
  }

  /** handlerUpdateExtension as written: the row gets the body's password
      and PIN as they are, not encrypted. */
  method HandlerUpdateExtension(table: ExtensionsTable, userID: Id, pathname: string, body: UpdateBody)
    returns (r: Result<Reply<Extension>, ApiError>)
    requires table.Valid()
    modifies table
    ensures table.Valid()
    ensures var checked := Owned(old(table.rows), userID, pathname);
      && (checked.Failure? ==> r == Failure(checked.error))
      && (checked.Success? ==>
        (r.Failure? <==> old(CheckRename(table, userID, table.rows[checked.value], body)).Fail?))
    ensures r.Failure? ==> table.rows == old(table.rows)
    ensures r.Success? ==> var id, p := LastSegment(pathname), UpdateParamsAsWritten(body);
      && r.value.status == 200 && id in table.rows && r.value.body == table.rows[id]
      && (p == NoChange ==> table.rows == old(table.rows))
      && (p != NoChange ==> table.rows == old(table.rows)[id := Merge(old(table.rows)[id], p).(updatedAt := old(table.clock))])
    ensures r.Success? ==> var e := table.rows[LastSegment(pathname)];
      && (body.password.Some? ==> e.password == body.password.value)
      && (body.pin.Some? ==> e.pin == body.pin.value)
    ensures old(UniqueNames(table.rows)) ==> UniqueNames(table.rows)
  {
    r := UpdateWith(table, userID, pathname, body, UpdateParamsAsWritten(body));
  }

  /** A stored password or PIN without a `:` is not an envelope: a get of
      that extension fails in decrypt, with the format error when it is the
      password. This is what a get answers after the update as written
      stored a plain secret. */
  lemma GetAfterPlainUpdate(table: ExtensionsTable, v: Crypto.Vault, userID: Id, pathname: string)
    requires Owned(table.rows, userID, pathname).Success?
    ensures var e := table.rows[LastSegment(pathname)];
      e.password.Some? && ':' !in e.password.value ==>
        HandlerGetExtensionByID(table, v, userID, pathname) == Failure(CryptoThrown(Crypto.InvalidFormat))
    ensures var e := table.rows[LastSegment(pathname)];
      e.pin.Some? && ':' !in e.pin.value ==> HandlerGetExtensionByID(table, v, userID, pathname).Failure?
  {
    var e := table.rows[LastSegment(pathname)];
    if e.password.Some? && ':' !in e.password.value {
      SplitNoSeparator(e.password.value, ':');
    }
    if e.pin.Some? && ':' !in e.pin.value {
      SplitNoSeparator(e.pin.value, ':');
    }
  }

  /** handlerUpdateExtension as intended: a new password or PIN is stored
      encrypted, so a later get opens it to the value given. */
  method HandlerUpdateExtensionIntended(table: ExtensionsTable, v: Crypto.Vault, ivPassword: Crypto.Iv, ivPin: Crypto.Iv,
                                        userID: Id, pathname: string, body: UpdateBody)
    returns (r: Result<Reply<Extension>, ApiError>)
    requires table.Valid()
    modifies table
    ensures table.Valid()
    ensures var checked := Owned(old(table.rows), userID, pathname);
      && (checked.Failure? ==> r == Failure(checked.error))
      && (checked.Success? ==>
        (r.Failure? <==> old(CheckRename(table, userID, table.rows[checked.value], body)).Fail?))
    ensures r.Failure? ==> table.rows == old(table.rows)
    ensures r.Success? ==> var id, p := LastSegment(pathname), UpdateParams(v, ivPassword, ivPin, body);
      && r.value.status == 200 && id in table.rows && r.value.body == table.rows[id]
      && (p == NoChange ==> table.rows == old(table.rows))
      && (p != NoChange ==> table.rows == old(table.rows)[id := Merge(old(table.rows)[id], p).(updatedAt := old(table.clock))])
    ensures r.Success? && Crypto.Inverts(v) ==> var e := table.rows[LastSegment(pathname)];
      && (body.password.Some? ==> Open(v, e.password) == Success(body.password.value))
      && (body.pin.Some? ==> Open(v, e.pin) == Success(body.pin.value))
    ensures old(UniqueNames(table.rows)) ==> UniqueNames(table.rows)
  {
    ghost var before := table.rows;
    r := UpdateWith(table, userID, pathname, body, UpdateParams(v, ivPassword, ivPin, body));
    if r.Success? && Crypto.Inverts(v) {
      var id := LastSegment(pathname);
      UpdatedSecretsOpen(before[id], v, ivPassword, ivPin, body);
    }
  }

  /** A rename that passed the check leaves no clash among non-empty names. */
  lemma RenameKeepsNamesUnique(before: map<Id, Extension>, id: Id, p: UpdateExtensionParams, after: map<Id, Extension>)
    requires id in before
    requires after == before || exists stamp: nat :: after == before[id := Merge(before[id], p).(updatedAt := stamp)]
    requires p.extensionName.Put? && p.extensionName.value != "" && p.extensionName.value != before[id].extensionName ==>
      !(exists k :: k in before && Named(before[k], before[id].userID, p.extensionName.value))
    ensures UniqueNames(before) ==> UniqueNames(after)
  {
  }

  /** handlerDeleteExtension: after the checks the row goes and the answer
      is 204; the delete is scoped as the checks were, so its 500 never
      happens. */
  method HandlerDeleteExtension(table: ExtensionsTable, userID: Id, pathname: string)
    returns (r: Result<Reply<()>, ApiError>)
    requires table.Valid()
    modifies table
    ensures table.Valid()
    ensures var checked := Owned(old(table.rows), userID, pathname);
      && (r.Failure? <==> checked.Failure?)
      && (r.Failure? ==> r.error == checked.error && table.rows == old(table.rows))
      && (r.Success? ==> r.value.status == 204 && table.rows == old(table.rows) - {checked.value})
    ensures r != Failure(InternalServer(DeleteFailedMessage))
  {
    var checked := Owned(table.rows, userID, pathname);
    if checked.Failure? {
      return Failure(checked.error);
    }
    ghost var before := table.rows;
    var deleted := table.DeleteExtension(checked.value, userID);
    assert table.rows == before - {checked.value};
    r := if deleted then Success(Reply(204, ())) else Failure(InternalServer(DeleteFailedMessage));
  }
}
