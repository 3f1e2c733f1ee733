/** The credentials table of src/db/credentials.ts. */
module DbCredentials {

  import opened Wrappers
  import opened Store

  datatype Credential = Credential(
    id: Id,
    createdAt: nat,
    updatedAt: nat,
    credentialName: string,
    login: string,
    password: string,
    userID: Id)

  function CreatedAt(c: Credential): nat { c.createdAt }

  datatype CreateCredentialParams = CreateCredentialParams(
    credentialName: string,
    login: string,
    password: string,
    userID: Id)

  /** Each field `Keep` when the parameter is undefined. */
  datatype UpdateCredentialParams = UpdateCredentialParams(
    credentialName: Patch<string>,
    login: Patch<string>,
    password: Patch<string>)

  const NoChange := UpdateCredentialParams(Keep, Keep, Keep)

  /** One `column = ?` entry of the SET list, with the value bound to it. */
  datatype Field = CredentialName(credentialName: string) | Login(login: string) | Password(password: string)

  function SetField(c: Credential, f: Field): Credential {
    match f
    case CredentialName(v) => c.(credentialName := v)
    case Login(v) => c.(login := v)
    case Password(v) => c.(password := v)
  }

  /** What `SET f1 = ?, f2 = ?, …` does to a row, left to right. */
  function Assign(c: Credential, fields: seq<Field>): Credential {
    if fields == [] then c
    else SetField(Assign(c, fields[..|fields| - 1]), fields[|fields| - 1])
  }

  lemma AssignShort(c: Credential, fields: seq<Field>)
    ensures |fields| == 1 ==> Assign(c, fields) == SetField(c, fields[0])
    ensures |fields| == 2 ==> Assign(c, fields) == SetField(SetField(c, fields[0]), fields[1])
    ensures |fields| == 3 ==>
      Assign(c, fields) == SetField(SetField(SetField(c, fields[0]), fields[1]), fields[2])
  {
    if |fields| == 3 {
      assert fields[..2][..1][..0] == [];
      assert fields[..2][..1] == fields[..1];
    } else if |fields| == 2 {
      assert fields[..1][..0] == [];
    } else if |fields| == 1 {
      assert fields[..0] == [];
    }
  }

  /** The reference meaning of a partial update: the row with each given
      field replaced and every other field as it was. */
  function Merge(c: Credential, p: UpdateCredentialParams): Credential {
    c.(credentialName := p.credentialName.Or(c.credentialName),
       login := p.login.Or(c.login),
       password := p.password.Or(c.password))
  }

  /** The same update twice is the update once, and no fields is no change. */
  lemma MergeIdempotent(c: Credential, p: UpdateCredentialParams)
    ensures Merge(Merge(c, p), p) == Merge(c, p)
    ensures Merge(c, NoChange) == c
  {
  }

  /** The `fields` list of updateCredential: one entry per defined
      parameter; running it on any row merges the given fields, and it is
      empty only when no parameter is given. */
  method SetClause(p: UpdateCredentialParams) returns (fields: seq<Field>)
    ensures fields == [] <==> p == NoChange
    ensures forall c :: Assign(c, fields) == Merge(c, p)
  {
    fields := [];
    if p.credentialName.Put? {
      fields := fields + [CredentialName(p.credentialName.value)];
    }
    if p.login.Put? {
      fields := fields + [Login(p.login.value)];
    }
    if p.password.Put? {
      fields := fields + [Password(p.password.value)];
    }
    forall c ensures Assign(c, fields) == Merge(c, p) {
      AssignShort(c, fields);
    }
  }

  /** Each row sits under its own id and was written before `clock`. */
  ghost predicate Wellformed(order: seq<Id>, rows: map<Id, Credential>, clock: nat) {
    Chronicle(order, rows, CreatedAt)
    && forall id :: id in rows ==> rows[id].id == id && rows[id].createdAt < clock && rows[id].updatedAt < clock
  }

  lemma WellformedInsert(order: seq<Id>, rows: map<Id, Credential>, clock: nat, row: Credential)
    requires Wellformed(order, rows, clock)
    requires row.id !in rows && row.createdAt == clock && row.updatedAt == clock
    ensures Wellformed(order + [row.id], rows[row.id := row], clock + 1)
  {
    ChronicleInsert(order, rows, CreatedAt, row.id, row);
  }

  lemma WellformedRewrite(order: seq<Id>, rows: map<Id, Credential>, clock: nat, row: Credential)
    requires Wellformed(order, rows, clock)
    requires row.id in rows && row.createdAt == rows[row.id].createdAt && row.updatedAt == clock
    ensures Wellformed(order, rows[row.id := row], clock + 1)
  {
    ChronicleRestamp(order, rows, rows[row.id := row], CreatedAt);
  }

  /** The row passes `WHERE user_id = ? AND credential_name = ?`. */
  predicate Named(c: Credential, userID: Id, credentialName: string) {
    c.userID == userID && c.credentialName == credentialName
  }

  class CredentialsTable {
    var rows: map<Id, Credential>
    var order: seq<Id>
    var clock: nat

    ghost predicate Valid()
      reads this
    {
      Wellformed(order, rows, clock)
    }

    constructor ()
      ensures Valid() && rows == map[] && clock == 0
    {
      rows, order, clock := map[], [], 0;
    }

    /** getCredentialByID. */
    function Get(id: Id): (r: Option<Credential>)
      reads this
      ensures r.Some? <==> id in rows
      ensures r.Some? ==> r.value == rows[id]
    {
      if id in rows then Some(rows[id]) else None
    }

    /** createCredential: one new row under `newID` (the value randomUUID
        gave) with both stamps at the current time, returned as read back by
        that id. */
    method CreateCredential(newID: Id, params: CreateCredentialParams) returns (r: Option<Credential>)
      requires Valid() && newID !in rows
      modifies this
      ensures Valid()
      ensures r == Some(Credential(newID, old(clock), old(clock), params.credentialName, params.login,
        params.password, params.userID))
      ensures rows == old(rows)[newID := r.value]
      ensures clock == old(clock) + 1
    {
      var c := Credential(newID, clock, clock, params.credentialName, params.login, params.password, params.userID);
      WellformedInsert(order, rows, clock, c);
      rows := rows[newID := c];
      order := order + [newID];
      clock := clock + 1;
      r := Get(newID);
    }

    /** getCredentialByName: a row with this user and this name, the first
        the scan meets, or none when the user has no credential so named. */
    function GetByName(userID: Id, credentialName: string): (r: Option<Credential>)
      reads this
      requires Valid()
      ensures r.Some? <==> exists id :: id in rows && Named(rows[id], userID, credentialName)
      ensures r.Some? ==> r.value in rows.Values && Named(r.value, userID, credentialName)
      ensures r.Some? ==> forall id :: (id in rows && Named(rows[id], userID, credentialName)
        ==> r.value.createdAt <= rows[id].createdAt)
    {
      var keep := (c: Credential) => Named(c, userID, credentialName);
      OldestListed(order, rows, keep, CreatedAt);
      var matches := Oldest(order, rows, keep);
      if matches == [] then None
      else
        assert forall id :: id in rows && keep(rows[id]) ==> rows[id] in matches;
        FirstIsOldest(matches);
        Some(matches[0])
    }

    /** updateCredential: with no defined field nothing is written and the
        answer is zero changes; otherwise the row with this id AND this user
        gets the defined fields and a new `updated_at`, and `changes` says
        whether there was such a row. */
    method UpdateCredential(id: Id, userID: Id, params: UpdateCredentialParams) returns (changes: nat)
      requires Valid()
      modifies this
      ensures Valid()
      ensures changes <= 1
      ensures params == NoChange ==> changes == 0 && rows == old(rows) && clock == old(clock)
      ensures params != NoChange ==>
        (changes == 1 <==> id in old(rows) && old(rows)[id].userID == userID)
      ensures params != NoChange && id in old(rows) && old(rows)[id].userID == userID ==>
        rows == old(rows)[id := Merge(old(rows)[id], params).(updatedAt := old(clock))]
      ensures changes == 0 ==> rows == old(rows)
    {
      var fields := SetClause(params);
      if |fields| == 0 {
        return 0;
      }
      changes := 0;
      if id in rows && rows[id].userID == userID {
        var updated := Assign(rows[id], fields).(updatedAt := clock);
        WellformedRewrite(order, rows, clock, updated);
        rows := rows[id := updated];
        changes := 1;
      }
      clock := clock + 1;
    }

    /** deleteCredential: removes the row only when it has this user AND
        this id; the statement's `changes` says whether a row went. */
    method DeleteCredential(userID: Id, id: Id) returns (changes: nat)
      requires Valid()
      modifies this
      ensures Valid()
      ensures changes <= 1
      ensures changes == 1 <==> id in old(rows) && old(rows)[id].userID == userID
      ensures forall k :: k in rows <==> k in old(rows) && !(k == id && old(rows)[k].userID == userID)
      ensures forall k :: k in rows ==> rows[k] == old(rows)[k]
    {
      var keep := (c: Credential) => !(c.userID == userID && c.id == id);
      AtMostOne(rows, keep, id);
      order, rows, changes := DeleteWhere(order, rows, keep, CreatedAt);
    }
  }

  /** The head of a list with increasing stamps has the smallest stamp of
      any element. */
  lemma FirstIsOldest(r: seq<Credential>)
    requires r != []
    requires forall i, j :: 0 <= i < j < |r| ==> r[i].createdAt < r[j].createdAt
    ensures forall c :: c in r ==> r[0].createdAt <= c.createdAt
  {
  }

  /** A WHERE clause on the key fails for at most one row. */
  lemma AtMostOne(rows: map<Id, Credential>, keep: Credential -> bool, id: Id)
    requires forall c :: !keep(c) ==> c.id == id
    requires forall k :: k in rows ==> rows[k].id == k
    ensures |KeysFailing(rows, keep)| <= 1
  {
    var gone := KeysFailing(rows, keep);
    assert gone <= {id};
    if id in gone {
      assert gone == {id};
    } else {
      assert gone == {};
    }
  }
}
