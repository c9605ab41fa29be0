/** End-to-end runs of the membership workflow: a room is created and a
    second user is invited and accepts; a join request is turned down; a
    granted request cannot be granted a second time. */
module Scenarios {
  import opened Common
  import opened Schema
  import opened Store
  import opened Notifications
  import Rooms

  /** Accepting a pending invitation of someone not yet in the room: the
      recipient joins on both sides, the invitation is resolved as accepted,
      and the join is the last entry of the log. */
  lemma AcceptPending(s: Db, nid: NotificationId)
    requires InvitationFound(s, nid)
    requires s.notifications[nid].to.value !in s.rooms[s.notifications[nid].room.value].contributors
    ensures var n := s.notifications[nid];
      var u, rid := n.to.value, n.room.value;
      var accepted := AcceptInvitation(s, Some(nid));
      && accepted.status == Ok
      && rid in accepted.db.rooms && u in accepted.db.users
      && accepted.db.rooms[rid].contributors == s.rooms[rid].contributors + [u]
      && rid in accepted.db.users[u].rooms
      && accepted.db.notifications[nid].kind == InvitationAccepted
      && accepted.db.notifications[nid].isResolved
      && var log := accepted.db.activities;
      && |log| > 0 && log[|log| - 1].title == JoinRoom
      && log[|log| - 1].user == u
  {
  }

  /** A room created with the defaults lists its creator alone, and no
      user is added or removed. */
  lemma CreatorAlone(s: Db, a: UserId, title: string, description: string, now: nat)
    requires Rooms.CreateRoomPasses(s, a, title, description)
    ensures var created := Rooms.CreateRoom(s, a, title, description, None, None, None, now);
      && created.status == Created
      && s.nextId in created.db.rooms
      && created.db.rooms[s.nextId].contributors == [a]
      && created.db.users.Keys == s.users.Keys
  {
  }

  /** Inviting a user who is not in the room leaves a pending invitation
      that the recipient can answer. */
  lemma InvitePending(s: Db, a: UserId, b: UserId, rid: RoomId)
    requires b in s.users && rid in s.rooms && b !in s.rooms[rid].contributors
    ensures var invited := SendInvitation(s, a, Some(b), Some(rid));
      && invited.status == Created
      && InvitationFound(invited.db, s.nextId)
      && invited.db.notifications[s.nextId] == Notification(Some(a), Some(b), Invitation, Some(rid), false, false)
      && invited.db.rooms[rid].contributors == s.rooms[rid].contributors
  {
  }

  /** `a` creates a room and invites `b`; the invitation is pending until
      `b` accepts, after which `b` is a contributor, the room is in `b`'s
      list, the invitation is resolved as accepted and the join is the
      last entry of the log. */
  lemma CreateInviteAccept(s: Db, a: UserId, b: UserId, title: string, description: string, now: nat)
    requires a in s.users && b in s.users && a != b
    requires Rooms.CreateRoomPasses(s, a, title, description)
    ensures var rid := s.nextId;
      var created := Rooms.CreateRoom(s, a, title, description, None, None, None, now);
      var invited := SendInvitation(created.db, a, Some(b), Some(rid));
      var nid := created.db.nextId;
      var accepted := AcceptInvitation(invited.db, Some(nid));
      && created.status == Created && invited.status == Created
      && nid in invited.db.notifications
      && invited.db.notifications[nid].kind == Invitation
      && !invited.db.notifications[nid].isResolved
      && accepted.status == Ok
      && rid in accepted.db.rooms && b in accepted.db.users
      && accepted.db.rooms[rid].contributors == [a, b]
      && rid in accepted.db.users[b].rooms
      && accepted.db.notifications[nid].kind == InvitationAccepted
      && accepted.db.notifications[nid].isResolved
      && var log := accepted.db.activities;
      && |log| > 0 && log[|log| - 1].title == JoinRoom
      && log[|log| - 1].user == b
  {
    var rid := s.nextId;
    var created := Rooms.CreateRoom(s, a, title, description, None, None, None, now);
    CreatorAlone(s, a, title, description, now);
    var invited := SendInvitation(created.db, a, Some(b), Some(rid));
    var nid := created.db.nextId;
    InvitePending(created.db, a, b, rid);
    assert invited.db.rooms[rid].contributors == [a];
    AcceptPending(invited.db, nid);
  }

  /** `c` asks to join a room it is not in and the admin declines: the
      request is resolved as rejected, `c` is told so by a new unread
      notice, and `c` is still not a contributor. */
  lemma RequestThenReject(s: Db, c: UserId, rid: RoomId)
    requires c in s.users && rid in s.rooms
    requires c !in s.rooms[rid].contributors
    ensures var admin := s.rooms[rid].admin;
      var requested := SendRequest(s, c, Some(rid));
      var rejected := RejectRequest(requested.db, admin, Some(s.nextId));
      var notice := requested.db.nextId;
      && requested.status == Created && rejected.status == Ok
      && rejected.db.notifications[s.nextId].kind == RequestRejected
      && rejected.db.notifications[s.nextId].isResolved
      && notice in rejected.db.notifications
      && rejected.db.notifications[notice] == Notification(Some(admin), Some(c), RequestRejected, Some(rid), false, false)
      && c !in rejected.db.rooms[rid].contributors
  {
  }

  /** Once a request has been granted, granting it again is answered 400
      and writes nothing: the requester is already a contributor. */
  lemma GrantedOnce(s: Db, actor: UserId, id: NotificationId)
    requires RequestFound(s, Some(id))
    requires s.notifications[id].from.value !in s.rooms[s.notifications[id].room.value].contributors
    ensures var first := AcceptRequest(s, actor, Some(id));
      && first.status == Ok
      && AcceptRequest(first.db, actor, Some(id)) == Outcome(BadRequest, first.db)
  {
  }
}
