/** The membership invariant (contributors and room lists mirror each
    other, without duplicates), the append-only log and the stickiness of
    resolution, proved for every modelled controller (the variants of
    `Step`) and for any run of them. */
module Invariants {
  import opened Common
  import opened Schema
  import opened Store
  import opened Notifications
  import opened Rooms
  import opened Users

  // ------------------------------------------------ membership changes

  /** Neither side of the membership relation changes and the id counter
      does not go back. */
  predicate MembershipUnchanged(s: State, s': State) {
    && s'.users.Keys == s.users.Keys && s'.rooms.Keys == s.rooms.Keys
    && (forall r :: r in s.rooms ==> s'.rooms[r].contributors == s.rooms[r].contributors)
    && (forall u :: u in s.users ==> s'.users[u].rooms == s.users[u].rooms)
    && s.nextId <= s'.nextId
  }

  /** `s'` is `s` with `u` appended to the contributors of `room` and `room`
      appended to the room list of `u`, and no other membership change. */
  predicate Joined(s: State, s': State, u: UserId, room: RoomId) {
    && u in s.users && room in s.rooms
    && s'.users.Keys == s.users.Keys && s'.rooms.Keys == s.rooms.Keys
    && s'.rooms[room].contributors == s.rooms[room].contributors + [u]
    && s'.users[u].rooms == s.users[u].rooms + [room]
    && (forall r :: r in s.rooms && r != room ==> s'.rooms[r].contributors == s.rooms[r].contributors)
    && (forall v :: v in s.users && v != u ==> s'.users[v].rooms == s.users[v].rooms)
    && s.nextId <= s'.nextId
  }

  /** `s'` is `s` with `u` pulled from the contributors of `room` and `room`
      pulled from the room list of `u`, and no other membership change. */
  predicate Left(s: State, s': State, u: UserId, room: RoomId) {
    && u in s.users && room in s.rooms
    && s'.users.Keys == s.users.Keys && s'.rooms.Keys == s.rooms.Keys
    && s'.rooms[room].contributors == Pull(s.rooms[room].contributors, u)
    && s'.users[u].rooms == Pull(s.users[u].rooms, room)
    && (forall r :: r in s.rooms && r != room ==> s'.rooms[r].contributors == s.rooms[r].contributors)
    && (forall v :: v in s.users && v != u ==> s'.users[v].rooms == s.users[v].rooms)
    && s.nextId <= s'.nextId
  }

  /** A step that leaves membership alone keeps the invariant. */
  lemma UnchangedKeepsValid(s: State, s': State)
    requires Valid(s) && MembershipUnchanged(s, s')
    ensures Valid(s')
  {
  }

  /** Adding a non-member on both sides keeps the invariant. */
  lemma JoinKeepsValid(s: Db, s': State, u: UserId, room: RoomId)
    requires Valid(s) && Joined(s, s', u, room)
    requires u !in s.rooms[room].contributors
    ensures Valid(s')
  {
    assert room !in s.users[u].rooms;
    PushKeepsDistinct(s.rooms[room].contributors, u);
    PushKeepsDistinct(s.users[u].rooms, room);
    forall v, r | v in s'.users && r in s'.rooms
      ensures v in s'.rooms[r].contributors <==> r in s'.users[v].rooms
    {
      assert v in s.rooms[r].contributors <==> r in s.users[v].rooms;
    }
    forall v, i | v in s'.users && 0 <= i < |s'.users[v].rooms|
      ensures s'.users[v].rooms[i] < s'.nextId
    {
      if v == u && i == |s.users[u].rooms| {
        assert s'.users[v].rooms[i] == room;
      } else {
        assert s'.users[v].rooms[i] == s.users[v].rooms[i];
      }
    }
  }

  /** Removing a member from both sides keeps the invariant. */
  lemma LeaveKeepsValid(s: Db, s': State, u: UserId, room: RoomId)
    requires Valid(s) && Left(s, s', u, room)
    ensures Valid(s')
  {
    PullKeepsDistinct(s.rooms[room].contributors, u);
    PullKeepsDistinct(s.users[u].rooms, room);
    forall v, r | v in s'.users && r in s'.rooms
      ensures v in s'.rooms[r].contributors <==> r in s'.users[v].rooms
    {
      assert v in s.rooms[r].contributors <==> r in s.users[v].rooms;
    }
    forall v, i | v in s'.users && 0 <= i < |s'.users[v].rooms|
      ensures s'.users[v].rooms[i] < s'.nextId
    {
      assert s'.users[v].rooms[i] in s'.users[v].rooms;
      if v == u {
        assert s'.users[v].rooms[i] in s.users[v].rooms;
      } else {
        assert s'.users[v].rooms[i] == s.users[v].rooms[i];
      }
    }
  }

  // ------------------------------------------- per-controller preservation

  /** Accepting an invitation restores membership symmetry: the recipient
      ends on both sides, once. */
  lemma AcceptInvitationKeepsValid(s: Db, id: Option<NotificationId>)
    requires Valid(s)
    ensures Valid(AcceptInvitation(s, id).db)
    ensures id.Some? && InvitationFound(s, id.value) ==>
      var n := s.notifications[id.value];
      var r := AcceptInvitation(s, id).db;
      n.to.value in r.rooms[n.room.value].contributors && n.room.value in r.users[n.to.value].rooms
  {
    var r := AcceptInvitation(s, id);
    if id.Some? && InvitationFound(s, id.value) {
      var n := s.notifications[id.value];
      var u, room := n.to.value, n.room.value;
      if u in s.rooms[room].contributors {
        assert room in s.users[u].rooms;
        UnchangedKeepsValid(s, r.db);
      } else {
        JoinKeepsValid(s, r.db, u, room);
      }
    }
  }

  /** Granting a request (with the intended guard) keeps the invariant. */
  lemma AcceptRequestKeepsValid(s: Db, actor: UserId, id: Option<NotificationId>)
    requires Valid(s)
    ensures Valid(AcceptRequest(s, actor, id).db)
  {
    var r := AcceptRequest(s, actor, id);
    if RequestFound(s, id) {
      var n := s.notifications[id.value];
      var u, room := n.from.value, n.room.value;
      if u !in s.rooms[room].contributors {
        JoinKeepsValid(s, r.db, u, room);
      }
    }
  }

  /** The join/leave toggle keeps the invariant in both directions. */
  lemma JoinLeaveKeepsValid(s: Db, actor: UserId, id: Option<RoomId>)
    requires Valid(s)
    ensures Valid(JoinLeaveRoom(s, actor, id).db)
  {
    var r := JoinLeaveRoom(s, actor, id);
    if ToggleFound(s, actor, id) {
      if actor !in s.rooms[id.value].contributors {
        ToggleJoins(s, actor, id.value);
        JoinKeepsValid(s, r.db, actor, id.value);
      } else {
        ToggleLeaves(s, actor, id.value);
        LeaveKeepsValid(s, r.db, actor, id.value);
      }
    }
  }

  /** The toggle by a non-contributor is a join. */
  lemma ToggleJoins(s: Db, actor: UserId, rid: RoomId)
    requires actor in s.users && rid in s.rooms && actor !in s.rooms[rid].contributors
    ensures Joined(s, JoinLeaveRoom(s, actor, Some(rid)).db, actor, rid)
  {
  }

  /** The toggle by a contributor is a leave. */
  lemma ToggleLeaves(s: Db, actor: UserId, rid: RoomId)
    requires actor in s.users && rid in s.rooms && actor in s.rooms[rid].contributors
    ensures Left(s, JoinLeaveRoom(s, actor, Some(rid)).db, actor, rid)
  {
  }

  /** Creating a room keeps the invariant: the creator and the new room are
      entered on both sides, and the new id was never handed out before.
      When the room document fails validation, the creator holds a
      reference to a room that does not exist, which the invariant (about
      existing rooms) tolerates. */
  lemma CreateRoomKeepsValid(s: Db, actor: UserId, title: string, description: string,
                             image: Option<string>, topic: Option<string>, kind: Option<string>, now: nat)
    requires Valid(s)
    ensures Valid(Rooms.CreateRoom(s, actor, title, description, image, topic, kind, now).db)
  {
    var r := Rooms.CreateRoom(s, actor, title, description, image, topic, kind, now).db;
    if CreateRoomPasses(s, actor, title, description) {
      var rid := s.nextId;
      assert rid !in s.users[actor].rooms;
      PushKeepsDistinct(s.users[actor].rooms, rid);
      forall v, q | v in r.users && q in r.rooms
        ensures v in r.rooms[q].contributors <==> q in r.users[v].rooms
      {
        if q == rid {
          assert rid !in s.users[v].rooms;
        } else {
          assert v in s.rooms[q].contributors <==> q in s.users[v].rooms;
        }
      }
      forall v, i | v in r.users && 0 <= i < |r.users[v].rooms|
        ensures r.users[v].rooms[i] < r.nextId
      {
        if v == actor && i == |s.users[actor].rooms| {
          assert r.users[v].rooms[i] == rid;
        } else {
          assert r.users[v].rooms[i] == s.users[v].rooms[i];
        }
      }
    }
  }

  /** Deleting a user keeps the invariant over the users that remain. */
  lemma DeleteUserKeepsValid(s: Db, id: Option<UserId>)
    requires Valid(s)
    ensures Valid(DeleteUser(s, id).db)
  {
  }

  // --------------------------------------------------------- all steps

  /** One request to any of the modelled controllers. */
  datatype Step =
    | SendInvitationStep(UserId, Option<UserId>, Option<RoomId>)
    | AcceptInvitationStep(Option<NotificationId>)
    | RejectInvitationStep(Option<NotificationId>)
    | SendRequestStep(UserId, Option<RoomId>)
    | AcceptRequestStep(UserId, Option<NotificationId>)
    | RejectRequestStep(UserId, Option<NotificationId>)
    | ListNotificationsStep(UserId)
    | CreateRoomStep(UserId, string, string, Option<string>, Option<string>, Option<string>, nat)
    | JoinLeaveRoomStep(UserId, Option<RoomId>)
    | SendMessageStep(UserId, Option<RoomId>, string)
    | CreateLinkStep(UserId, Option<RoomId>, string, string)
    | DeleteLinkStep(UserId, Option<RoomId>, Option<LinkId>)
    | CreateTaskStep(UserId, Option<RoomId>, string, string, Option<UserId>, Option<nat>)
    | UpdateTaskStatusStep(UserId, Option<RoomId>, Option<TaskId>, string)
    | UpdateUserStep(Option<UserId>, string, string, string)
    | DeleteUserStep(Option<UserId>)

  /** The response and store after serving `step`. */
  function Apply(s: Db, step: Step): Outcome {
    match step
    case SendInvitationStep(actor, to, room) => SendInvitation(s, actor, to, room)
    case AcceptInvitationStep(id) => AcceptInvitation(s, id)
    case RejectInvitationStep(id) => RejectInvitation(s, id)
    case SendRequestStep(actor, room) => SendRequest(s, actor, room)
    case AcceptRequestStep(actor, id) => AcceptRequest(s, actor, id)
    case RejectRequestStep(actor, id) => RejectRequest(s, actor, id)
    case ListNotificationsStep(user) => Outcome(Ok, ListNotifications(s, user).1)
    case CreateRoomStep(actor, title, description, image, topic, kind, now) =>
      Rooms.CreateRoom(s, actor, title, description, image, topic, kind, now)
    case JoinLeaveRoomStep(actor, room) => JoinLeaveRoom(s, actor, room)
    case SendMessageStep(actor, room, body) => SendMessage(s, actor, room, body)
    case CreateLinkStep(actor, room, name, url) => Rooms.CreateLink(s, actor, room, name, url)
    case DeleteLinkStep(actor, room, link) => Rooms.DeleteLink(s, actor, room, link)
    case CreateTaskStep(actor, room, title, description, assignee, deadline) =>
      Rooms.CreateTask(s, actor, room, title, description, assignee, deadline)
    case UpdateTaskStatusStep(actor, room, task, status) => Rooms.UpdateTaskStatus(s, actor, room, task, status)
    case UpdateUserStep(id, name, email, specialization) => UpdateUser(s, id, name, email, specialization)
    case DeleteUserStep(id) => DeleteUser(s, id)
  }

  /** Every modelled controller keeps the membership invariant. */
  lemma StepKeepsValid(s: Db, step: Step)
    requires Valid(s)
    ensures Valid(Apply(s, step).db)
  {
    var r := Apply(s, step).db;
    match step
    case AcceptInvitationStep(id) => AcceptInvitationKeepsValid(s, id);
    case AcceptRequestStep(actor, id) => AcceptRequestKeepsValid(s, actor, id);
    case CreateRoomStep(actor, title, description, image, topic, kind, now) =>
      CreateRoomKeepsValid(s, actor, title, description, image, topic, kind, now);
    case JoinLeaveRoomStep(actor, room) => JoinLeaveKeepsValid(s, actor, room);
    case DeleteUserStep(id) => DeleteUserKeepsValid(s, id);
    case _ =>
      if RoomsUntouched(step) {
        RoomsUntouchedKeepsMembership(s, step);
      } else {
        UsersUntouchedKeepsMembership(s, step);
      }
      UnchangedKeepsValid(s, r);
  }

  /** The controllers that leave every room as it was. */
  predicate RoomsUntouched(step: Step) {
    || step.SendInvitationStep? || step.RejectInvitationStep? || step.SendRequestStep?
    || step.RejectRequestStep? || step.ListNotificationsStep? || step.UpdateUserStep?
  }

  /** The controllers that edit a room's collections but no user. */
  predicate UsersUntouched(step: Step) {
    || step.SendMessageStep? || step.CreateLinkStep? || step.DeleteLinkStep?
    || step.CreateTaskStep? || step.UpdateTaskStatusStep?
  }

  /** A controller that leaves the rooms alone changes no membership. */
  lemma RoomsUntouchedKeepsMembership(s: Db, step: Step)
    requires RoomsUntouched(step)
    ensures MembershipUnchanged(s, Apply(s, step).db)
  {
    match step
    case SendInvitationStep(_, _, _) =>
    case RejectInvitationStep(_) =>
    case SendRequestStep(_, _) =>
    case RejectRequestStep(_, _) =>
    case ListNotificationsStep(_) =>
    case UpdateUserStep(_, _, _, _) =>
  }

  /** A controller that edits one room's collections changes no membership. */
  lemma UsersUntouchedKeepsMembership(s: Db, step: Step)
    requires UsersUntouched(step)
    ensures MembershipUnchanged(s, Apply(s, step).db)
  {
    match step
    case SendMessageStep(actor, room, body) => SendMessageKeepsMembership(s, actor, room, body);
    case CreateLinkStep(actor, room, name, url) => CreateLinkKeepsMembership(s, actor, room, name, url);
    case DeleteLinkStep(actor, room, link) => DeleteLinkKeepsMembership(s, actor, room, link);
    case CreateTaskStep(actor, room, title, description, assignee, deadline) =>
      CreateTaskKeepsMembership(s, actor, room, title, description, assignee, deadline);
    case UpdateTaskStatusStep(actor, room, task, status) =>
      UpdateTaskStatusKeepsMembership(s, actor, room, task, status);
  }

  /** Posting a message leaves membership alone. */
  lemma SendMessageKeepsMembership(s: Db, actor: UserId, room: Option<RoomId>, body: string)
    ensures MembershipUnchanged(s, SendMessage(s, actor, room, body).db)
  {
  }

  /** Adding a link leaves membership alone. */
  lemma CreateLinkKeepsMembership(s: Db, actor: UserId, room: Option<RoomId>, name: string, url: string)
    ensures MembershipUnchanged(s, Rooms.CreateLink(s, actor, room, name, url).db)
  {
  }

  /** Removing a link leaves membership alone. */
  lemma DeleteLinkKeepsMembership(s: Db, actor: UserId, room: Option<RoomId>, link: Option<LinkId>)
    ensures MembershipUnchanged(s, Rooms.DeleteLink(s, actor, room, link).db)
  {
  }

  /** Adding a task leaves membership alone. */
  lemma CreateTaskKeepsMembership(s: Db, actor: UserId, room: Option<RoomId>, title: string,
                                  description: string, assignee: Option<UserId>, deadline: Option<nat>)
    ensures MembershipUnchanged(s, Rooms.CreateTask(s, actor, room, title, description, assignee, deadline).db)
  {
  }

  /** A status update, even one that fails validation, leaves membership
      alone. */
  lemma UpdateTaskStatusKeepsMembership(s: Db, actor: UserId, room: Option<RoomId>,
                                        task: Option<TaskId>, status: string)
    ensures MembershipUnchanged(s, Rooms.UpdateTaskStatus(s, actor, room, task, status).db)
  {
  }

  /** No controller removes or shortens the activity log, and no
      notification that was resolved becomes unresolved or disappears. */
  lemma StepKeepsHistory(s: Db, step: Step)
    ensures LogExtended(s, Apply(s, step).db)
    ensures ResolutionKept(s, Apply(s, step).db)
    ensures s.notifications.Keys <= Apply(s, step).db.notifications.Keys
  {
    if RoomsUntouched(step) {
      RoomsUntouchedKeepsHistory(s, step);
    } else if UsersUntouched(step) {
      UsersUntouchedKeepsHistory(s, step);
    } else {
      MembershipStepKeepsHistory(s, step);
    }
  }

  /** The history part of StepKeepsHistory for the controllers that leave
      every room as it was. */
  lemma RoomsUntouchedKeepsHistory(s: Db, step: Step)
    requires RoomsUntouched(step)
    ensures LogExtended(s, Apply(s, step).db)
    ensures ResolutionKept(s, Apply(s, step).db)
    ensures s.notifications.Keys <= Apply(s, step).db.notifications.Keys
  {
  }

  /** The history part of StepKeepsHistory for the controllers that edit a
      room's collections but no user. */
  lemma UsersUntouchedKeepsHistory(s: Db, step: Step)
    requires UsersUntouched(step)
    ensures LogExtended(s, Apply(s, step).db)
    ensures ResolutionKept(s, Apply(s, step).db)
    ensures s.notifications.Keys <= Apply(s, step).db.notifications.Keys
  {
  }

  /** The history part of StepKeepsHistory for the controllers that change
      membership or delete a user. */
  lemma MembershipStepKeepsHistory(s: Db, step: Step)
    requires !RoomsUntouched(step) && !UsersUntouched(step)
    ensures LogExtended(s, Apply(s, step).db)
    ensures ResolutionKept(s, Apply(s, step).db)
    ensures s.notifications.Keys <= Apply(s, step).db.notifications.Keys
  {
  }

  /** Every notification a controller creates carries a kind the schema's
      enum lists, so its validated save succeeds. No controller creates one
      of the two kinds the enum lacks: they only overwrite the kind of a
      notification already stored (of any kind, since nothing checks it). */
  lemma CreatedNoticesPassSchemaEnum(s: Db, step: Step)
    ensures var s' := Apply(s, step).db;
      forall n :: n in s'.notifications && n !in s.notifications ==> s'.notifications[n].kind.InSchemaEnum()
    ensures var s' := Apply(s, step).db;
      forall n :: n in s'.notifications && s'.notifications[n].kind in {InvitationAccepted, InvitationRejected} ==>
        n in s.notifications
  {
  }

  /** A client error (a 4xx answer) comes before any write, except that
      answering an invitation for someone already in the room still marks
      it accepted. */
  lemma ClientErrorsWriteNothing(s: Db, step: Step)
    requires 400 <= Apply(s, step).status.Code() < 500
    requires !MemberAnswersInvitation(s, step)
    ensures Apply(s, step).db == s
  {
  }

  /** The exception is needed: an unresolved invitation accepted by a
      recipient already in the room is answered 400 and yet marked. */
  lemma MemberAnswerWrites(s: Db, id: NotificationId)
    requires MemberAnswersInvitation(s, AcceptInvitationStep(Some(id)))
    requires !s.notifications[id].isResolved
    ensures Apply(s, AcceptInvitationStep(Some(id))).status == BadRequest
    ensures Apply(s, AcceptInvitationStep(Some(id))).db != s
  {
  }

  /** `step` accepts a stored invitation whose recipient already
      contributes to its room: the one 4xx answer that still writes. */
  predicate MemberAnswersInvitation(s: State, step: Step) {
    match step
    case AcceptInvitationStep(id) =>
      && id.Some? && InvitationFound(s, id.value)
      && var n := s.notifications[id.value];
         n.to.value in s.rooms[n.room.value].contributors
    case _ => false
  }

  /** The store after serving `steps` in order. */
  function Run(s: Db, steps: seq<Step>): Db
    decreases |steps|
  {
    if |steps| == 0 then s else Run(Apply(s, steps[0]).db, steps[1..])
  }

  /** Any sequence of requests to the modelled controllers keeps the
      membership invariant. */
  lemma {:induction false} RunKeepsValid(s: Db, steps: seq<Step>)
    requires Valid(s)
    ensures Valid(Run(s, steps))
    decreases |steps|
  {
    if |steps| > 0 {
      StepKeepsValid(s, steps[0]);
      RunKeepsValid(Apply(s, steps[0]).db, steps[1..]);
    }
  }

  /** Any sequence of requests only appends to the log and never
      un-resolves a notification. */
  lemma {:induction false} RunKeepsHistory(s: Db, steps: seq<Step>)
    ensures LogExtended(s, Run(s, steps))
    ensures ResolutionKept(s, Run(s, steps))
    decreases |steps|
  {
    if |steps| > 0 {
      var s1 := Apply(s, steps[0]).db;
      StepKeepsHistory(s, steps[0]);
      RunKeepsHistory(s1, steps[1..]);
      var s2 := Run(s1, steps[1..]);
      assert s2.activities[..|s.activities|] == s2.activities[..|s1.activities|][..|s.activities|];
    }
  }

  /** Resolution is sticky but the outcome is not: nothing stops an
      invitation that was declined from being accepted afterwards, and the
      recipient then joins the room. */
  lemma DeclinedInvitationCanBeAccepted(s: Db, id: NotificationId)
    requires InvitationFound(s, id)
    requires s.notifications[id].to.value !in s.rooms[s.notifications[id].room.value].contributors
    ensures var declined := RejectInvitation(s, Some(id)).db;
      var accepted := AcceptInvitation(declined, Some(id));
      && declined.notifications[id].isResolved
      && declined.notifications[id].kind == InvitationRejected
      && accepted.status == Ok
      && accepted.db.notifications[id].kind == InvitationAccepted
      && s.notifications[id].to.value in accepted.db.rooms[s.notifications[id].room.value].contributors
  {
  }
}
