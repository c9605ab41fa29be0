/** The invitation and join-request workflow of the notification
    controller, plus the recipient's inbox listing and unread counter.
    Each controller is a pure transition from the store before the request
    to its response status and the store after it; the writes a controller
    issues together are applied as one step. */
module Notifications {
  import opened Common
  import opened Schema
  import opened Store

  // ------------------------------------------------------------- lookups

  /** The invitation `id` exists, and the room and the recipient it names
      both exist: the three lookups an answer to an invitation performs. */
  predicate InvitationFound(s: State, id: NotificationId) {
    && id in s.notifications
    && s.notifications[id].room.Some? && s.notifications[id].room.value in s.rooms
    && s.notifications[id].to.Some? && s.notifications[id].to.value in s.users
  }

  /** The request `id` exists and the room it names exists. */
  predicate RequestRoomFound(s: State, id: Option<NotificationId>) {
    && id.Some? && id.value in s.notifications
    && s.notifications[id.value].room.Some?
    && s.notifications[id.value].room.value in s.rooms
  }

  /** ...and the requester (the sender of the request) exists too. */
  predicate RequestFound(s: State, id: Option<NotificationId>) {
    && RequestRoomFound(s, id)
    && s.notifications[id.value].from.Some?
    && s.notifications[id.value].from.value in s.users
  }

  /** An answered invitation: read, resolved, and carrying the outcome. */
  function Answered(n: Notification, outcome: NotificationType): Notification {
    n.(isRead := true, isResolved := true, kind := outcome)
  }

  /** A request resolved in place: the outcome and the resolved flag are
      set, the read flag is left as it was. */
  function Settled(n: Notification, outcome: NotificationType): Notification {
    n.(isResolved := true, kind := outcome)
  }

  // --------------------------------------------------------- invitations

  /** Sends an invitation to `to` for room `roomId` on behalf of `actor`. */
  function SendInvitation(s: Db, actor: UserId, to: Option<UserId>, roomId: Option<RoomId>): (r: Outcome)
    ensures to.None? || roomId.None? ==> r == Outcome(BadRequest, s)
    ensures to.Some? && roomId.Some? && roomId.value !in s.rooms ==> r == Outcome(NotFound, s)
    ensures to.Some? && roomId.Some? && roomId.value in s.rooms ==>
      && r.status == Created
      && s.nextId !in s.notifications
      && r.db.notifications ==
           s.notifications[s.nextId := Notification(Some(actor), to, Invitation, roomId, false, false)]
      && Logged(s.activities, r.db.activities, SendInvite, actor)
      && r.db.users == s.users && r.db.rooms == s.rooms
  {
    if to.None? || roomId.None? then Outcome(BadRequest, s)
    else if roomId.value !in s.rooms then Outcome(NotFound, s)
    else
      var s1 := SaveNotification(s, NewNotification(Some(actor), to, Invitation, roomId));
      Outcome(Created, SaveActivity(s1, SendInvite, actor))
  }

  /** The recipient of invitation `id` accepts it. */
  function AcceptInvitation(s: Db, id: Option<NotificationId>): (r: Outcome)
    ensures id.None? ==> r == Outcome(BadRequest, s)
    ensures id.Some? && !InvitationFound(s, id.value) ==> r == Outcome(NotFound, s)
    // whatever the membership, the invitation ends answered as accepted
    ensures id.Some? && InvitationFound(s, id.value) ==>
      var n := s.notifications[id.value];
      r.db.notifications == s.notifications[id.value := Answered(n, InvitationAccepted)]
    // already a contributor: a conflict, and membership and log are untouched
    ensures id.Some? && InvitationFound(s, id.value) ==>
      var n := s.notifications[id.value];
      n.to.value in s.rooms[n.room.value].contributors ==>
        && r.status == BadRequest
        && r.db.rooms == s.rooms && r.db.users == s.users && r.db.activities == s.activities
    // otherwise the recipient joins on both sides and the join is logged
    ensures id.Some? && InvitationFound(s, id.value) ==>
      var n := s.notifications[id.value];
      var u, room := n.to.value, n.room.value;
      u !in s.rooms[room].contributors ==>
        && r.status == Ok
        && room in r.db.rooms && u in r.db.users
        && r.db.rooms == s.rooms[room := r.db.rooms[room]]
        && r.db.rooms[room] == s.rooms[room].(contributors := s.rooms[room].contributors + [u])
        && r.db.users == s.users[u := r.db.users[u]]
        && r.db.users[u] == s.users[u].(rooms := s.users[u].rooms + [room])
        && Logged(s.activities, r.db.activities, JoinRoom, u)
  {
    if id.None? then Outcome(BadRequest, s)
    else if !InvitationFound(s, id.value) then Outcome(NotFound, s)
    else
      var n := s.notifications[id.value];
      var u, room := n.to.value, n.room.value;
      var answered := PutNotification(s, id.value, Answered(n, InvitationAccepted));
      if u in s.rooms[room].contributors then Outcome(BadRequest, answered)
      else
        var s1 := PutRoom(answered, room, s.rooms[room].(contributors := s.rooms[room].contributors + [u]));
        var s2 := PutUser(s1, u, s.users[u].(rooms := s.users[u].rooms + [room]));
        Outcome(Ok, SaveActivity(s2, JoinRoom, u))
  }

  /** The recipient of invitation `id` declines it. */
  function RejectInvitation(s: Db, id: Option<NotificationId>): (r: Outcome)
    ensures id.None? ==> r == Outcome(BadRequest, s)
    ensures id.Some? && !InvitationFound(s, id.value) ==> r == Outcome(NotFound, s)
    ensures id.Some? && InvitationFound(s, id.value) ==>
      var n := s.notifications[id.value];
      && r.status == Ok
      && r.db.notifications == s.notifications[id.value := Answered(n, InvitationRejected)]
      && Logged(s.activities, r.db.activities, RejectInvite, n.to.value)
      && r.db.rooms == s.rooms && r.db.users == s.users
  {
    if id.None? then Outcome(BadRequest, s)
    else if !InvitationFound(s, id.value) then Outcome(NotFound, s)
    else
      var n := s.notifications[id.value];
      var s1 := SaveActivity(s, RejectInvite, n.to.value);
      Outcome(Ok, PutNotification(s1, id.value, Answered(n, InvitationRejected)))
  }

  // ------------------------------------------------------------ requests

  /** `actor` asks to join room `roomId`; the request goes to the admin. */
  function SendRequest(s: Db, actor: UserId, roomId: Option<RoomId>): (r: Outcome)
    ensures roomId.None? ==> r == Outcome(BadRequest, s)
    ensures roomId.Some? && roomId.value !in s.rooms ==> r == Outcome(NotFound, s)
    ensures roomId.Some? && roomId.value in s.rooms ==>
      var admin := s.rooms[roomId.value].admin;
      && r.status == Created
      && s.nextId !in s.notifications
      && r.db.notifications ==
           s.notifications[s.nextId := Notification(Some(actor), Some(admin), Request, roomId, false, false)]
      && Logged(s.activities, r.db.activities, RequestRoom, actor)
      && r.db.users == s.users && r.db.rooms == s.rooms
  {
    if roomId.None? then Outcome(BadRequest, s)
    else if roomId.value !in s.rooms then Outcome(NotFound, s)
    else
      var room := s.rooms[roomId.value];
      var s1 := SaveNotification(s, NewNotification(Some(actor), Some(room.admin), Request, roomId));
      Outcome(Created, SaveActivity(s1, RequestRoom, actor))
  }

  /** `actor` (the admin) grants request `id`. The conflict guard is the
      intended one: the requester is already a contributor. */
  function AcceptRequest(s: Db, actor: UserId, id: Option<NotificationId>): (r: Outcome)
    ensures !RequestRoomFound(s, id) ==> r == Outcome(NotFound, s)
    ensures RequestRoomFound(s, id) && s.notifications[id.value].from.None? ==>
      r == Outcome(ServerError, s)
    ensures RequestRoomFound(s, id) && s.notifications[id.value].from.Some? && !RequestFound(s, id) ==>
      r == Outcome(NotFound, s)
    ensures RequestFound(s, id) ==>
      var n := s.notifications[id.value];
      var u, room := n.from.value, n.room.value;
      u in s.rooms[room].contributors ==> r == Outcome(BadRequest, s)
    ensures RequestFound(s, id) ==>
      var n := s.notifications[id.value];
      var u, room := n.from.value, n.room.value;
      u !in s.rooms[room].contributors ==>
        && r.status == Ok
        && s.nextId !in s.notifications
        && r.db.notifications ==
             s.notifications[id.value := Settled(n, RequestAccepted)]
                            [s.nextId := Notification(Some(actor), Some(u), RequestAccepted, Some(room), false, false)]
        && room in r.db.rooms && u in r.db.users
        && r.db.rooms == s.rooms[room := r.db.rooms[room]]
        && r.db.rooms[room] == s.rooms[room].(contributors := s.rooms[room].contributors + [u])
        && r.db.users == s.users[u := r.db.users[u]]
        && r.db.users[u] == s.users[u].(rooms := s.users[u].rooms + [room])
        && Logged(s.activities, r.db.activities, JoinRoom, u)
  {
    if !RequestRoomFound(s, id) then Outcome(NotFound, s)
    else
      var n := s.notifications[id.value];
      if n.from.None? then Outcome(ServerError, s)
      else if n.from.value !in s.users then Outcome(NotFound, s)
      else if n.from.value in s.rooms[n.room.value].contributors then Outcome(BadRequest, s)
      else GrantRequest(s, actor, id.value)
  }

  /** The writes of a granted request: the original is settled in place, a
      new notice informs the requester, the requester joins on both sides,
      and the join is logged. */
  function GrantRequest(s: Db, actor: UserId, id: NotificationId): (r: Outcome)
    requires RequestFound(s, Some(id))
  {
    var n := s.notifications[id];
    var u, room := n.from.value, n.room.value;
    var s1 := PutRoom(s, room, s.rooms[room].(contributors := s.rooms[room].contributors + [u]));
    var s2 := PutUser(s1, u, s.users[u].(rooms := s.users[u].rooms + [room]));
    var s3 := PutNotification(s2, id, Settled(n, RequestAccepted));
    var s4 := SaveNotification(s3, NewNotification(Some(actor), Some(u), RequestAccepted, Some(room)));
    Outcome(Ok, SaveActivity(s4, JoinRoom, u))
  }

  /** `actor` (the admin) turns down request `id`. */
  function RejectRequest(s: Db, actor: UserId, id: Option<NotificationId>): (r: Outcome)
    ensures !RequestRoomFound(s, id) ==> r == Outcome(NotFound, s)
    ensures RequestRoomFound(s, id) && s.notifications[id.value].from.None? ==>
      r == Outcome(ServerError, s)
    ensures RequestRoomFound(s, id) && s.notifications[id.value].from.Some? && !RequestFound(s, id) ==>
      r == Outcome(NotFound, s)
    ensures RequestFound(s, id) ==>
      var n := s.notifications[id.value];
      var u, room := n.from.value, n.room.value;
      && r.status == Ok
      && s.nextId !in s.notifications
      && r.db.notifications ==
           s.notifications[id.value := Settled(n, RequestRejected)]
                          [s.nextId := Notification(Some(actor), Some(u), RequestRejected, Some(room), false, false)]
      && r.db.rooms == s.rooms && r.db.users == s.users && r.db.activities == s.activities
  {
    if !RequestRoomFound(s, id) then Outcome(NotFound, s)
    else
      var n := s.notifications[id.value];
      if n.from.None? then Outcome(ServerError, s)
      else if n.from.value !in s.users then Outcome(NotFound, s)
      else
        var s1 := PutNotification(s, id.value, Settled(n, RequestRejected));
        Outcome(Ok, SaveNotification(s1, NewNotification(Some(actor), Some(n.from.value), RequestRejected, n.room)))
  }

  // --------------------------------------------------------------- inbox

  /** The notifications addressed to `user`. */
  function Inbox(s: State, user: UserId): set<NotificationId> {
    set n | n in s.notifications && s.notifications[n].to == Some(user)
  }

  /** The notifications addressed to `user` that are still unread. */
  function Unread(s: State, user: UserId): set<NotificationId> {
    set n | n in s.notifications && s.notifications[n].to == Some(user) && !s.notifications[n].isRead
  }

  /** Lists the inbox of `user` and marks every listed notification read;
      the listing shows the notifications as they were before. */
  function ListNotifications(s: Db, user: UserId): (r: (map<NotificationId, Notification>, Db))
    ensures r.0.Keys == Inbox(s, user)
    ensures forall n :: n in r.0 ==> r.0[n] == s.notifications[n]
    ensures r.1.notifications.Keys == s.notifications.Keys
    ensures forall n :: n in s.notifications && s.notifications[n].to == Some(user) ==>
      r.1.notifications[n] == s.notifications[n].(isRead := true)
    ensures forall n :: n in s.notifications && s.notifications[n].to != Some(user) ==>
      r.1.notifications[n] == s.notifications[n]
    ensures r.1.users == s.users && r.1.rooms == s.rooms && r.1.activities == s.activities
  {
    var listed := map n | n in s.notifications && s.notifications[n].to == Some(user) :: s.notifications[n];
    var marked := map n | n in s.notifications ::
      if s.notifications[n].to == Some(user) then s.notifications[n].(isRead := true)
      else s.notifications[n];
    (listed, s.(notifications := marked))
  }

  /** Counts the unread notifications addressed to `user`. */
  method CountUnread(s: Db, user: UserId) returns (count: nat)
    ensures count == |Unread(s, user)|
  {
    count := 0;
    var todo := s.notifications.Keys;
    ghost var counted: set<NotificationId> := {};
    while todo != {}
      invariant todo <= s.notifications.Keys
      invariant counted == Unread(s, user) - todo
      invariant count == |counted|
      decreases todo
    {
      var n :| n in todo;
      var note := s.notifications[n];
      if note.to == Some(user) && !note.isRead {
        counted := counted + {n};
        count := count + 1;
      }
      todo := todo - {n};
    }
  }

  /** After the inbox has been listed, nothing addressed to that user is
      unread, and every other user's unread set is as before. */
  lemma ListingClearsUnread(s: Db, user: UserId)
    ensures Unread(ListNotifications(s, user).1, user) == {}
    ensures forall other :: other != user ==>
      Unread(ListNotifications(s, user).1, other) == Unread(s, other)
  {
  }

  /** A sent invitation or request is one more unread notification for its
      recipient and for nobody else. */
  lemma NewNoticeIsUnread(s: Db, actor: UserId, to: UserId, roomId: RoomId, other: UserId)
    requires roomId in s.rooms
    ensures Unread(SendInvitation(s, actor, Some(to), Some(roomId)).db, to) == Unread(s, to) + {s.nextId}
    ensures other != to ==>
      Unread(SendInvitation(s, actor, Some(to), Some(roomId)).db, other) == Unread(s, other)
    ensures var admin := s.rooms[roomId].admin;
      Unread(SendRequest(s, actor, Some(roomId)).db, admin) == Unread(s, admin) + {s.nextId}
    ensures other != s.rooms[roomId].admin ==>
      Unread(SendRequest(s, actor, Some(roomId)).db, other) == Unread(s, other)
  {
  }
}
