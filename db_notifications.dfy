/** The notifications table of src/db/notifications.ts. `is_read` is an
    INTEGER column read back with `!!`; `read_at` is kept as a point in time,
    since markAllNotificationsAsRead writes CURRENT_TIMESTAMP into it. */
module DbNotifications {

  import opened Wrappers
  import opened Store

  datatype Notification = Notification(
    id: Id,
    createdAt: nat,
    userID: Id,
    executionID: Option<Id>,
    notificationType: string,
    title: string,
    message: string,
    isRead: bool,
    readAt: Option<nat>)

  function CreatedAt(n: Notification): nat { n.createdAt }

  /** `executionID` is `None` when undefined or null. */
  datatype CreateNotificationParams = CreateNotificationParams(
    userID: Id,
    executionID: Option<Id>,
    notificationType: string,
    title: string,
    message: string)

  /** Each field `Keep` when the parameter is undefined; a given `readAt`
      may be null. */
  datatype UpdateNotificationParams = UpdateNotificationParams(
    isRead: Patch<bool>,
    readAt: Patch<Option<nat>>)

  const NoChange := UpdateNotificationParams(Keep, Keep)

  /** One `column = ?` entry of the SET list; `is_read` binds the stored 1/0. */
  datatype Column = IsRead(stored: int) | ReadAt(readAt: Option<nat>)

  function SetColumn(n: Notification, c: Column): Notification {
    match c
    case IsRead(v) => n.(isRead := LoadBool(v))
    case ReadAt(v) => n.(readAt := v)
  }

  /** What `SET c1 = ?, c2 = ?` does to a row, left to right. */
  function Assign(n: Notification, updates: seq<Column>): Notification {
    if updates == [] then n
    else SetColumn(Assign(n, updates[..|updates| - 1]), updates[|updates| - 1])
  }

  lemma AssignShort(n: Notification, updates: seq<Column>)
    ensures |updates| == 1 ==> Assign(n, updates) == SetColumn(n, updates[0])
    ensures |updates| == 2 ==> Assign(n, updates) == SetColumn(SetColumn(n, updates[0]), updates[1])
  {
    if |updates| == 2 {
      assert updates[..1][..0] == [];
    } else if |updates| == 1 {
      assert updates[..0] == [];
    }
  }

  /** The reference meaning of a partial update. */
  function Merge(n: Notification, p: UpdateNotificationParams): Notification {
    n.(isRead := p.isRead.Or(n.isRead), readAt := p.readAt.Or(n.readAt))
  }

  /** The SET list of updateNotification: one entry per defined parameter;
      running it on any row merges the given fields, and it is empty only
      when no parameter is given. */
  method SetClause(p: UpdateNotificationParams) returns (updates: seq<Column>)
    ensures updates == [] <==> p == NoChange
    ensures forall n :: Assign(n, updates) == Merge(n, p)
  {
    updates := [];
    if p.isRead.Put? {
      updates := updates + [IsRead(StoreBool(p.isRead.value))];
    }
    if p.readAt.Put? {
      updates := updates + [ReadAt(p.readAt.value)];
    }
    forall n ensures Assign(n, updates) == Merge(n, p) {
      AssignShort(n, updates);
    }
  }

  /** Each row sits under its own id and was written before `clock`. */
  ghost predicate Wellformed(order: seq<Id>, rows: map<Id, Notification>, clock: nat) {
    Chronicle(order, rows, CreatedAt)
    && forall id :: id in rows ==> rows[id].id == id && rows[id].createdAt < clock
  }

  lemma WellformedInsert(order: seq<Id>, rows: map<Id, Notification>, clock: nat, row: Notification)
    requires Wellformed(order, rows, clock)
    requires row.id !in rows && row.createdAt == clock
    ensures Wellformed(order + [row.id], rows[row.id := row], clock + 1)
  {
    ChronicleInsert(order, rows, CreatedAt, row.id, row);
  }

  /** Changing rows in place without touching their ids or creation stamps
      keeps the table well formed, also with the clock advanced. */
  lemma WellformedRewrite(order: seq<Id>, rows: map<Id, Notification>, rows': map<Id, Notification>, clock: nat)
    requires Wellformed(order, rows, clock)
    requires rows'.Keys == rows.Keys
    requires forall k :: k in rows ==> rows'[k].id == rows[k].id && rows'[k].createdAt == rows[k].createdAt
    ensures Wellformed(order, rows', clock)
    ensures Wellformed(order, rows', clock + 1)
  {
    ChronicleRestamp(order, rows, rows', CreatedAt);
  }

  /** The ids of the user's unread rows. */
  function UnreadIds(rows: map<Id, Notification>, userID: Id): set<Id> {
    set id | id in rows && rows[id].userID == userID && !rows[id].isRead
  }

  /** The ids of the user's read rows. */
  function ReadIds(rows: map<Id, Notification>, userID: Id): set<Id> {
    set id | id in rows && rows[id].userID == userID && rows[id].isRead
  }

  lemma PickedUnread(rows: map<Id, Notification>, userID: Id, pick: Notification -> bool)
    requires forall n :: pick(n) == (n.userID == userID && !n.isRead)
    ensures KeysWhere(rows, pick) == UnreadIds(rows, userID)
  {
  }

  lemma DroppedRead(rows: map<Id, Notification>, userID: Id, keep: Notification -> bool)
    requires forall n :: keep(n) == !(n.userID == userID && n.isRead)
    ensures KeysFailing(rows, keep) == ReadIds(rows, userID)
  {
  }

  class NotificationsTable {
    var rows: map<Id, Notification>
    var order: seq<Id>
    var clock: nat

    ghost predicate Valid()
      reads this
    {
      Wellformed(order, rows, clock)
    }

    constructor ()
      ensures Valid() && rows == map[] && clock == 0
    {
      rows, order, clock := map[], [], 0;
    }

    /** getNotificationByID. */
    function Get(id: Id): (r: Option<Notification>)
      reads this
      ensures r.Some? <==> id in rows
      ensures r.Some? ==> r.value == rows[id]
    {
      if id in rows then Some(rows[id]) else None
    }

    /** createNotification: one new unread row under `newID` (the value
        randomUUID gave), with no read time, no execution unless one is
        given, and the current time as its creation stamp. */
    method CreateNotification(newID: Id, params: CreateNotificationParams) returns (n: Notification)
      requires Valid() && newID !in rows
      modifies this
      ensures Valid()
      ensures n == Notification(newID, old(clock), params.userID, params.executionID,
        params.notificationType, params.title, params.message, false, None)
      ensures rows == old(rows)[newID := n]
      ensures clock == old(clock) + 1
    {
      n := Notification(newID, clock, params.userID, params.executionID,
        params.notificationType, params.title, params.message, LoadBool(0), None);
      WellformedInsert(order, rows, clock, n);
      rows := rows[newID := n];
      order := order + [newID];
      clock := clock + 1;
    }

    /** listNotificationsByUserID: the user's rows, newest first. */
    function ListByUser(userID: Id): (r: seq<Notification>)
      reads this
      requires Valid()
      ensures forall i :: 0 <= i < |r| ==> r[i].userID == userID && r[i] in rows.Values
      ensures forall id :: id in rows && rows[id].userID == userID ==> rows[id] in r
      ensures forall i, j :: 0 <= i < j < |r| ==> r[i].createdAt > r[j].createdAt
    {
      var keep := (n: Notification) => n.userID == userID;
      NewestListed(order, rows, keep, CreatedAt);
      Newest(order, rows, keep)
    }

    /** listUnreadNotificationsByUserID: the user's unread rows, newest
        first, one per unread id. */
    function ListUnread(userID: Id): (r: seq<Notification>)
      reads this
      requires Valid()
      ensures forall i :: 0 <= i < |r| ==> r[i].userID == userID && !r[i].isRead && r[i] in rows.Values
      ensures forall id :: id in rows && rows[id].userID == userID && !rows[id].isRead ==> rows[id] in r
      ensures forall i, j :: 0 <= i < j < |r| ==> r[i].createdAt > r[j].createdAt
      ensures |r| == |UnreadIds(rows, userID)|
    {
      var keep := (n: Notification) => n.userID == userID && !n.isRead;
      NewestListed(order, rows, keep, CreatedAt);
      assert KeysWhere(rows, keep) == UnreadIds(rows, userID);
      Newest(order, rows, keep)
    }

    /** listNotificationsByType: the user's rows of one type, newest first. */
    function ListByType(userID: Id, notificationType: string): (r: seq<Notification>)
      reads this
      requires Valid()
      ensures forall i :: 0 <= i < |r| ==>
        r[i].userID == userID && r[i].notificationType == notificationType && r[i] in rows.Values
      ensures forall id :: (id in rows && rows[id].userID == userID && rows[id].notificationType == notificationType
        ==> rows[id] in r)
      ensures forall i, j :: 0 <= i < j < |r| ==> r[i].createdAt > r[j].createdAt
    {
      var keep := (n: Notification) => n.userID == userID && n.notificationType == notificationType;
      NewestListed(order, rows, keep, CreatedAt);
      Newest(order, rows, keep)
    }

    /** listNotificationsByExecutionID: the user's rows about one execution,
        newest first; rows with no execution never match. */
    function ListByExecution(userID: Id, executionID: Id): (r: seq<Notification>)
      reads this
      requires Valid()
      ensures forall i :: 0 <= i < |r| ==>
        r[i].userID == userID && r[i].executionID == Some(executionID) && r[i] in rows.Values
      ensures forall id :: (id in rows && rows[id].userID == userID && rows[id].executionID == Some(executionID)
        ==> rows[id] in r)
      ensures forall i, j :: 0 <= i < j < |r| ==> r[i].createdAt > r[j].createdAt
    {
      var keep := (n: Notification) => n.userID == userID && n.executionID == Some(executionID);
      NewestListed(order, rows, keep, CreatedAt);
      Newest(order, rows, keep)
    }

    /** countUnreadNotifications: as many as listUnreadNotificationsByUserID
        returns. */
    function CountUnread(userID: Id): (n: nat)
      reads this
      requires Valid()
      ensures n == |ListUnread(userID)|
    {
      |UnreadIds(rows, userID)|
    }

    /** updateNotification: with no defined field nothing is written;
        otherwise the row with this id AND this user gets the defined fields
        and any other row is left alone. Either way the result is the row
        read back by id alone. */
    method UpdateNotification(id: Id, userID: Id, params: UpdateNotificationParams) returns (r: Option<Notification>)
      requires Valid()
      modifies this
      ensures Valid()
      ensures clock == old(clock) && order == old(order)
      ensures params != NoChange && id in old(rows) && old(rows)[id].userID == userID ==>
        rows == old(rows)[id := Merge(old(rows)[id], params)]
      ensures !(params != NoChange && id in old(rows) && old(rows)[id].userID == userID) ==>
        rows == old(rows)
      ensures r == Get(id)
    {
      var updates := SetClause(params);
      if |updates| == 0 {
        r := Get(id);
        return;
      }
      if id in rows && rows[id].userID == userID {
        var updated := Assign(rows[id], updates);
        WellformedRewrite(order, rows, rows[id := updated], clock);
        rows := rows[id := updated];
      }
      r := Get(id);
    }

    /** markNotificationAsRead: the update that sets the row read at `now`
        (the time `new Date()` gave). */
    method MarkAsRead(id: Id, userID: Id, now: nat) returns (r: Option<Notification>)
      requires Valid()
      modifies this
      ensures Valid()
      ensures clock == old(clock) && order == old(order)
      ensures id in old(rows) && old(rows)[id].userID == userID ==>
        rows == old(rows)[id := old(rows)[id].(isRead := true, readAt := Some(now))]
      ensures !(id in old(rows) && old(rows)[id].userID == userID) ==> rows == old(rows)
      ensures r == Get(id)
    {
      r := UpdateNotification(id, userID, UpdateNotificationParams(Put(true), Put(Some(now))));
    }

    /** markAllNotificationsAsRead: every unread row of the user becomes read
        at the current time, every other row stays as it was, and the result
        is how many rows changed, which is how many were unread. */
    method MarkAllAsRead(userID: Id) returns (changes: nat)
      requires Valid()
      modifies this
      ensures Valid()
      ensures changes == |UnreadIds(old(rows), userID)|
      ensures UnreadIds(rows, userID) == {}
      ensures rows.Keys == old(rows).Keys
      ensures forall k :: k in rows ==>
        rows[k] == if old(rows)[k].userID == userID && !old(rows)[k].isRead
          then old(rows)[k].(isRead := true, readAt := Some(old(clock)))
          else old(rows)[k]
      ensures clock == old(clock) + 1
    {
      var pick := (n: Notification) => n.userID == userID && !n.isRead;
      var now := clock;
      var change := (n: Notification) => n.(isRead := LoadBool(1), readAt := Some(now));
      PickedUnread(rows, userID, pick);
      rows, changes := UpdateWhere(order, rows, pick, change, CreatedAt);
      clock := clock + 1;
    }

    /** deleteNotification: removes the row only when it has this id AND this
        user, and says whether a row went. */
    method DeleteNotification(id: Id, userID: Id) returns (deleted: bool)
      requires Valid()
      modifies this
      ensures Valid()
      ensures deleted <==> id in old(rows) && old(rows)[id].userID == userID
      ensures forall k :: k in rows <==> k in old(rows) && !(k == id && old(rows)[k].userID == userID)
      ensures forall k :: k in rows ==> rows[k] == old(rows)[k]
    {
      var keep := (n: Notification) => !(n.id == id && n.userID == userID);
      var removed;
      order, rows, removed := DeleteWhere(order, rows, keep, CreatedAt);
      deleted := removed > 0;
    }

    /** deleteReadNotifications: removes the user's read rows, keeps every
        other row, and says how many went. */
    method DeleteRead(userID: Id) returns (deleted: nat)
      requires Valid()
      modifies this
      ensures Valid()
      ensures deleted == |ReadIds(old(rows), userID)|
      ensures forall k :: k in rows <==> k in old(rows) && !(old(rows)[k].userID == userID && old(rows)[k].isRead)
      ensures forall k :: k in rows ==> rows[k] == old(rows)[k]
    {
      var keep := (n: Notification) => !(n.userID == userID && n.isRead);
      DroppedRead(rows, userID, keep);
      order, rows, deleted := DeleteWhere(order, rows, keep, CreatedAt);
    }
  }
}
