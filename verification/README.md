# Room membership and notifications of code_collab_backend, in Dafny

The backend lets users create collaboration rooms, invite each other, ask to
join rooms, and work inside a room on messages, links and tasks. This project
models the core of that backend: the room-membership and notification
workflow. It covers:

- the invitation controllers (send, accept, reject);
- the join-request controllers (send, accept, reject);
- the inbox listing and the unread counter;
- the room controller's create, join/leave toggle, messages, links, tasks
  and recent-rooms listing;
- the partial profile update and user deletion;
- the schema enums and defaults that fix what new rooms, tasks and
  notifications look like.

The model is one immutable state with four stores:

- users, each with a `rooms` list;
- rooms, each with an `admin`, `contributors` and embedded collections;
- notifications, each with `from`, `to`, `room`, type, `isRead` and `isResolved`;
- the append-only activity log.

An id counter stands for ObjectId issuance. The subset type `Store.Db` carries
the fact that every stored key was issued before the counter, so fresh ids
need no precondition.

Each controller is a pure function from the state before the request to an
`Outcome`: the response status and the state after it. The writes that a
controller issues together in one `Promise.all` are applied as one step.
Each controller's contract states:

- which guard answers first (400 for a missing field, 404 for a missing
  document, 400 when the request is already satisfied);
- exactly what is appended or changed;
- that nothing else changes.

`$push` is sequence append. `$pull` is `Common.Pull`, which removes every
occurrence.

Modules:

- `Common`: optional values, statuses, and `$pull` with its lemmas.
- `Schema`: the documents, with the enums and defaults of the mongoose
  schemas.
- `Store`: the state, the write helpers, the activity-log predicate, and the
  invariants.
- `Notifications`: the invitation and request workflow and the inbox.
- `Rooms`: the room controller.
- `Users`: the user controller.
- `Invariants`: the membership invariant, log growth and sticky resolution,
  proved for every modelled controller (`Invariants.Step`) and for any run of
  them. The membership
  invariant holds with the corrected request-granting guard
  (`Notifications.AcceptRequest`); the controller as written breaks it
  (`Findings.AsWrittenListsMemberTwice`).
- `Findings`: the request-granting controller as written, and its
  counterexample.
- `Scenarios`: end-to-end runs.

The membership invariant (`Store.Valid`) has three parts:

- a user is a contributor of a room exactly when the room is in the user's
  list;
- neither list repeats an entry;
- room references were all issued.

Request inputs are modelled this way:

- A JavaScript-falsy body string is `""`.
- A missing id is `None`. The source's `findById(undefined)` answers `null`,
  so controllers without an explicit id guard (acceptRequest, rejectRequest,
  updateUser) answer 404 for it.
- The authenticated actor is a plain user id. Every modelled route that has
  an actor sits behind the authentication middleware, which sets it to an
  existing user. The recent-rooms listing has no actor and no such guard.

Behaviour of the source that a reader might not expect, and which the model
keeps:

- No controller checks `isResolved` before acting on a notification, so a
  declined invitation can still be accepted
  (`Invariants.DeclinedInvitationCanBeAccepted`).
- E-mail is not kept unique: signup rejects an address already registered,
  but the user schema declares no unique index and updateUser does not
  check, so an update can give two users the same address. The model's
  updateUser does not check either.
- The notification schema's enum lacks `invitationAccepted` and
  `invitationRejected`. These values are only written through `updateOne`,
  which does not validate, so the model uses the seven-variant notification
  type.
- The activity schema declares only `title` and `user`. Every controller also
  passes the room, but mongoose drops paths the schema does not declare, so a
  stored log entry carries no room, and neither does `Schema.Activity`.
- The TypeScript type says "Front End Developer". The mongoose enum, which
  decides whether a save succeeds, says "Front-End Developer", and the model
  uses the enum.
- A room or task saved with an out-of-enum topic, type or status fails
  validation with a 500. The writes issued alongside it in the same
  `Promise.all` still land: the creation's activity entry and the creator's
  room reference, and the status update's activity entry. The model shows
  this.
- Tasks are added with `updateOne`, which does not validate, so a task can be
  stored with an empty description. Updating any task's status later saves
  the whole room, which validates every task, so in such a room every status
  update answers 500 (while its activity entry still lands).

## Model

| member | source | states |
|---|---|---|
| Common.Pull | src/controllers/room.controller.ts:497-500 | `$pull` leaves no copy of the pulled value and keeps every other value with its number of occurrences, never lengthening the array |
| Common.PullConcat | src/controllers/room.controller.ts:497-500 | pulling from a concatenation is pulling from each part in place, so the values that remain keep their order |
| Common.PullSingle | src/controllers/room.controller.ts:497-500 | a single element is removed by `$pull` exactly when it equals the pulled value |
| Common.PullAbsent | src/controllers/room.controller.ts:497-500 | pulling a value the array does not hold leaves it unchanged |
| Common.PullUndoesPush | src/controllers/room.controller.ts:497-500 | pulling the value just pushed onto an array without it restores the array |
| Common.PullKeepsDistinct | src/controllers/room.controller.ts:497-500 | pulling from a duplicate-free array keeps it duplicate-free |
| Common.PushKeepsDistinct | src/controllers/notification.controller.ts:116-118 | pushing a value the array does not hold keeps it duplicate-free |
| Schema.TopicField | src/models/room.model.ts:49-61 | an absent topic defaults to General; a supplied one is accepted exactly when it is one of the seven listed names, and is stored under that name |
| Schema.RoomTypeField | src/models/room.model.ts:70 | an absent type defaults to public; a supplied one is accepted exactly when it is "public" or "private" |
| Schema.ParseTaskStatus | src/models/room.model.ts:33-37 | a status is accepted exactly when it is "not started", "in progress" or "finished", and keeps that name |
| Notifications.SendInvitation | src/controllers/notification.controller.ts:47-81 | a missing `to` or `roomId` is a 400 and an unknown room a 404, both writing nothing; otherwise one unread, unresolved invitation from the actor to `to` for the room is added, one sendInvite entry by the actor is logged, and users and rooms are untouched |
| Notifications.AcceptInvitation | src/controllers/notification.controller.ts:83-131 | missing id 400, unknown notification, room or recipient 404; whatever the membership, the invitation ends read, resolved and invitationAccepted; a recipient already in the room gets 400 with membership and log untouched; otherwise the recipient is appended on both sides and joinRoom is logged for the recipient |
| Notifications.RejectInvitation | src/controllers/notification.controller.ts:133-170 | same guards; membership is never touched, the invitation ends read, resolved and invitationRejected, and rejectInvite is logged for the recipient |
| Notifications.SendRequest | src/controllers/notification.controller.ts:174-208 | missing room 400, unknown room 404; otherwise one unread request from the actor to the room's admin is added and requestRoom is logged for the actor |
| Notifications.AcceptRequest | src/controllers/notification.controller.ts:210-260 | unknown notification or room 404, a request without a sender 500, unknown sender 404, a sender already in the room 400 with nothing written (the corrected guard; as written the source grants it again, Findings.AsWrittenListsMemberTwice); otherwise the request is resolved as requestAccepted in place, a new requestAccepted notice goes to the sender, the sender joins on both sides and joinRoom is logged |
| Notifications.RejectRequest | src/controllers/notification.controller.ts:262-295 | same lookups; the request is resolved as requestRejected in place, one new requestRejected notice goes to the sender, and membership and log are untouched |
| Notifications.ListNotifications | src/controllers/notification.controller.ts:16-21 | the listing is exactly the user's inbox as it was, and afterwards every notification addressed to the user is read while all others are unchanged |
| Notifications.CountUnread | src/controllers/notification.controller.ts:35-38 | the count is the number of unread notifications addressed to the user |
| Notifications.ListingClearsUnread | src/controllers/notification.controller.ts:16-38 | after listing, the user's unread count is zero and every other user's unread set is unchanged |
| Notifications.NewNoticeIsUnread | src/models/notification.model.ts:20-21 | a sent invitation adds exactly one unread notification for its recipient and none for anyone else; a sent request does the same for the room's admin |
| Rooms.CreateRoom | src/controllers/room.controller.ts:11-71 | missing title or description 400, unknown creator 404, a title already in use 400, all writing nothing; past the guards the new room is filed under the creator and createRoom is logged; an out-of-enum topic or type gives 500 with no room stored; otherwise the room has the creator as admin and sole contributor, empty messages, links, files and tasks, the defaults for topic, type and image, and the supplied title and description |
| Rooms.JoinLeaveRoom | src/controllers/room.controller.ts:470-511 | missing id 400, unknown user or room 404; otherwise membership of the actor flips on both sides (appended when joining; when leaving, both lists are the old ones with the actor or room pulled), no one else's membership changes, the log gets joinRoom or leaveRoom to match, and the user's activity list gains the entry |
| Rooms.JoinThenLeaveRestores | src/controllers/room.controller.ts:489-503 | toggling twice from a non-member state restores the room and the user's room list, and logs a join followed by a leave |
| Rooms.SendMessage | src/controllers/room.controller.ts:182-210 | missing id or empty body 400, unknown room 404; otherwise exactly one message with the body and the actor as sender is appended and nothing else changes |
| Rooms.CreateLink | src/controllers/room.controller.ts:234-271 | missing name, link or id 400, a link not starting with "https://" 400, unknown room 404, all writing nothing; otherwise the link is appended with its name and URL, the other links stay, and createLink is logged |
| Rooms.WithoutLink | src/controllers/room.controller.ts:311 | the links that remain are exactly those whose id differs from the pulled one, each kept as often as before |
| Rooms.WithoutLinkConcat | src/controllers/room.controller.ts:311 | removing by id from a concatenation removes from each part in place, so the remaining links keep their order |
| Rooms.WithoutFreshLink | src/controllers/room.controller.ts:311 | removing by id a link appended with an id no other link carries gives back the earlier links |
| Rooms.DeleteLink | src/controllers/room.controller.ts:289-319 | missing id 400, unknown room 404; otherwise the remaining links are the old ones, in order and with their multiplicities, minus those with the given id, and deleteLink is logged whether or not such a link existed |
| Rooms.CreateThenDeleteLinkRestores | src/controllers/room.controller.ts:248-313 | deleting the link just created restores the room's links |
| Rooms.CreateTask | src/controllers/room.controller.ts:343-386 | missing title 400, unknown assignee 404, missing id 400, unknown room 404; otherwise one task with the given fields and status "not started" is appended, the others stay, and createTask is logged |
| Rooms.FindTask | src/controllers/room.controller.ts:426-428 | finds the first task with the given id, or reports that none has it |
| Rooms.StatusKeepsCompleteness | src/models/room.model.ts:28-38 | whether a room's tasks pass the sub-schema's required-field validation does not depend on any task's status |
| Rooms.UpdateTaskStatus | src/controllers/room.controller.ts:408-446 | missing id 400, unknown room 404, missing task id or status 400, no matching task 404; once the task is found updateTaskStatus is logged; an out-of-enum status, or any task of the room lacking a title or description, gives 500 with the room unchanged; otherwise only that task's status changes and every other task is untouched |
| Rooms.UpdateTaskStatusIdempotent | src/controllers/room.controller.ts:426-441 | repeating a successful status update leaves the room as the first one left it |
| Rooms.Newest | src/controllers/room.controller.ts:519 | picks a room no other candidate is newer than |
| Rooms.RecentRooms | src/controllers/room.controller.ts:513-527 | returns min(3, number of rooms) distinct stored rooms, newest first, with no room left out newer than any listed |
| Users.UpdateUser | src/controllers/user.controller.ts:38-55 | missing or unknown id 404 with nothing written; a resulting specialization outside the schema's list 500 with nothing written; otherwise name, email and specialization are each replaced only when supplied, and no other field or store changes |
| Users.UpdateUserIdempotent | src/controllers/user.controller.ts:46-49 | sending the same successful update twice changes nothing more |
| Users.EmptyUpdateChangesNothing | src/controllers/user.controller.ts:46-49 | an update that supplies nothing leaves the store as it was |
| Users.DeleteUser | src/controllers/user.controller.ts:71-84 | missing id 400; otherwise exactly that user is removed and nothing else changes |
| Invariants.AcceptInvitationKeepsValid | src/controllers/notification.controller.ts:101-125 | accepting an invitation keeps the membership invariant, and afterwards the recipient is on both sides of the membership |
| Invariants.AcceptRequestKeepsValid | src/controllers/notification.controller.ts:229-254 | granting a request keeps the membership invariant, with the corrected guard of Notifications.AcceptRequest; as written the source breaks it (Findings.AsWrittenListsMemberTwice) |
| Invariants.JoinLeaveKeepsValid | src/controllers/room.controller.ts:489-503 | the join/leave toggle keeps the membership invariant in both directions |
| Invariants.CreateRoomKeepsValid | src/controllers/room.controller.ts:45-65 | room creation keeps the membership invariant, including when the room fails validation |
| Invariants.DeleteUserKeepsValid | src/controllers/user.controller.ts:77-78 | deleting a user keeps the invariant over the remaining users |
| Invariants.RoomsUntouchedKeepsMembership | src/controllers/notification.controller.ts:47-295 | sending or declining invitations, sending or declining requests, listing the inbox and updating a profile change neither side of any membership |
| Invariants.UsersUntouchedKeepsMembership | src/controllers/room.controller.ts:182-446 | posting messages, adding or deleting links, and adding or updating tasks change neither side of any membership |
| Invariants.StepKeepsValid | src/controllers/notification.controller.ts:47-295 | every modelled controller (`Invariants.Step`) keeps the membership invariant, with the corrected request-granting guard of Notifications.AcceptRequest (as written the source breaks it, Findings.AsWrittenListsMemberTwice): the six notification controllers cited, the modelled room controllers of room.controller.ts (create, join/leave, message, link, task) and updateUser and deleteUser of user.controller.ts:38-84 |
| Invariants.StepKeepsHistory | src/controllers/notification.controller.ts:47-295 | no modelled controller (`Invariants.Step`) shortens the log, drops a notification or un-resolves one |
| Invariants.CreatedNoticesPassSchemaEnum | src/models/notification.model.ts:8-18 | every notification a modelled controller creates has a kind the schema's enum lists, so no controller creates an invitationAccepted or invitationRejected notification: those kinds only overwrite a notification already stored, whatever its kind |
| Invariants.ClientErrorsWriteNothing | src/controllers/notification.controller.ts:47-295 | a 4xx answer from any modelled controller (`Invariants.Step`) writes nothing, except that an invitation accepted by a recipient already in the room is still marked accepted |
| Invariants.MemberAnswerWrites | src/controllers/notification.controller.ts:101-108 | that exception is real: accepting an unresolved invitation whose recipient is already in the room answers 400 and still changes the store |
| Invariants.RunKeepsValid | src/controllers/notification.controller.ts:47-295 | any sequence of requests to the modelled controllers (`Invariants.Step`) keeps the membership invariant, with the corrected request-granting guard of Notifications.AcceptRequest (as written the source breaks it, Findings.AsWrittenListsMemberTwice) |
| Invariants.RunKeepsHistory | src/controllers/notification.controller.ts:47-295 | over any sequence of requests to the modelled controllers (`Invariants.Step`) the log only grows and resolution is never undone |
| Invariants.DeclinedInvitationCanBeAccepted | src/controllers/notification.controller.ts:83-170 | a declined invitation can still be accepted, and the recipient then joins |
| Findings.AcceptRequestAsWritten | src/controllers/notification.controller.ts:210-260 | as written, a request whose room and sender exist is always granted and the sender appended to the contributors, member or not |
| Findings.AsWrittenListsMemberTwice | src/controllers/notification.controller.ts:229 | as written, granting a request from an existing contributor answers 200, lists the contributor twice, logs a second join and breaks the invariant, where the corrected controller answers 400 and writes nothing |
| Findings.WitnessShowsDuplicate | src/controllers/notification.controller.ts:229-254 | on a concrete store the as-written controller yields contributors [0, 1, 1] while the corrected one answers 400 |
| Scenarios.InvitePending | src/controllers/notification.controller.ts:62-76 | inviting someone not in the room leaves an unread, unresolved invitation that the recipient can answer, with the room unchanged |
| Scenarios.AcceptPending | src/controllers/notification.controller.ts:110-126 | accepting a pending invitation of a non-member answers 200, appends the recipient to the contributors, files the room under the recipient, resolves the invitation as accepted and ends the log with the join |
| Scenarios.CreateInviteAccept | src/controllers/notification.controller.ts:47-131 | create a room, invite a second user, accept: the invitation was pending, the invitee is now a contributor with the room in its list, the invitation is resolved as accepted, and the last log entry is the join |
| Scenarios.RequestThenReject | src/controllers/notification.controller.ts:174-295 | a request that the admin declines is resolved as rejected, the requester gets a new unread rejection notice and does not become a contributor |
| Scenarios.GrantedOnce | src/controllers/notification.controller.ts:229-230 | granting the same request a second time is a 400 that writes nothing, with the corrected guard of Notifications.AcceptRequest; as written the source grants it again and lists the sender twice (Findings.AsWrittenListsMemberTwice) |

## Left out

- Authentication: bcrypt hashing, JWT signing and the middleware are foreign
  libraries. The 401 branches are unreachable behind the middleware, which
  always supplies an existing user, so the actor is a parameter.
- Image and file uploads to the external image host: the stored image URL is
  an opaque optional string handed in by the caller. The upload-file
  controller is left out for the same reason.
- The MongoDB connection, server bootstrap and route tables: I/O plumbing.
- Concurrency of `Promise.all` and partial failure: each controller is one
  atomic transition. The only partial outcomes modelled are validation
  failures (enum values, and the task sub-schema's required title and
  description, room.model.ts:28-38), which are deterministic.
- The `try/catch` 500 answers for database errors. The modelled 500s are
  validation failures (enum values, and the task sub-schema's required title
  and description, room.model.ts:28-38) and the TypeError from a request
  without a sender.
- Read-only getters (all rooms, single room, members, messages, links, tasks,
  files, activities, users, search): they change nothing. The `$text` search
  and `populate` joins are storage-engine behaviour.
- Follow/unfollow: the controller is a stub that only answers a message, so
  there are no follow semantics to model.
- Timestamps: message and notification `createdAt` are not modelled. The
  room's `createdAt` is an input, because the recent-rooms listing orders by
  it.
- Notifications.ListNotifications: returns the inbox as a map, not in
  newest-first order, because notification timestamps are not modelled.
- Rooms.RecentRooms: rooms created at the same moment may be listed in
  either order, and the projection to a few fields is not modelled.
- Rooms.CreateTask: the deadline is an optional number rather than a date.
  The task schema's required description is not checked here, because
  `updateOne` does not run validators; the next status update in the room
  fails on it instead (`Rooms.UpdateTaskStatus`).
- Rooms.DeleteLink: a request without a link id is modelled as removing
  nothing. What the store does with a `$pull` condition on an undefined
  `_id` depends on how the driver serialises `undefined`, which is not part
  of this model.
- Users.UpdateUser: email uniqueness is not modelled. The schema declares
  no unique index and updateUser does not check; only signup does, and
  signup is part of authentication, which is left out above.
- Cascades on user deletion: the source deletes only the user document, so
  rooms keep listing the deleted user. The invariant is stated over the users
  that exist.
- Invariants.RunKeepsValid: covers runs of the modelled controllers only.
  createUserController (user.controller.ts:28-36) is left out. It stores
  `req.body` as given, on a route without the authentication middleware, so
  it can create a user whose room list names a room that does not list the
  user, which breaks the membership invariant. deleteRoomController
  (room.controller.ts:164-179) is left out as well. It removes the room
  document only, and users keep the id in their room lists.

## Findings

| source | as written | input that shows it | evidently intended | confidence | as-written member | corrected member |
|---|---|---|---|---|---|---|
| src/controllers/notification.controller.ts:229 | the "already in room" guard compares the contributor's ObjectId with the requester's ObjectId using `===`, which holds only for one and the same object, so it never fires | user 1 is already a contributor of room 2 and request 3 from user 1 for room 2 is granted: the answer is 200, the contributors become [0, 1, 1], and a second joinRoom is logged | answer 400 and write nothing when the requester is already a contributor | not executed | Findings.AcceptRequestAsWritten | Notifications.AcceptRequest |
