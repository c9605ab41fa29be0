/** The room controller: creating a room, the join/leave toggle, the
    embedded collections (messages, links, tasks) and the recent-rooms
    listing. Uploaded images are opaque URL strings handed in by the
    caller. */
module Rooms {
  import opened Common
  import opened Schema
  import opened Store

  // -------------------------------------------------------------- rooms

  /** Some stored room already carries `title`. */
  predicate TitleTaken(s: State, title: string) {
    exists r :: r in s.rooms && s.rooms[r].title == title
  }

  /** The guards of room creation that answer before anything is written. */
  predicate CreateRoomPasses(s: State, actor: UserId, title: string, description: string) {
    title != "" && description != "" && actor in s.users && !TitleTaken(s, title)
  }

  /** `actor` creates a room. An out-of-enum topic or type makes the room
      document fail validation while the log entry and the creator's room
      reference, written alongside it, still land. */
  function CreateRoom(s: Db, actor: UserId, title: string, description: string,
                      image: Option<string>, topic: Option<string>, kind: Option<string>,
                      now: nat): (r: Outcome)
    ensures title == "" || description == "" ==> r == Outcome(BadRequest, s)
    ensures title != "" && description != "" && actor !in s.users ==> r == Outcome(NotFound, s)
    ensures title != "" && description != "" && actor in s.users && TitleTaken(s, title) ==>
      r == Outcome(BadRequest, s)
    // every request past the guards logs the creation and files the new
    // room id under the creator
    ensures CreateRoomPasses(s, actor, title, description) ==>
      var rid := s.nextId;
      && rid !in s.rooms
      && actor in r.db.users
      && r.db.users == s.users[actor := s.users[actor].(rooms := s.users[actor].rooms + [rid])]
      && Logged(s.activities, r.db.activities, ActivityTitle.CreateRoom, actor)
      && r.db.notifications == s.notifications
    ensures CreateRoomPasses(s, actor, title, description) &&
            (TopicField(topic).None? || RoomTypeField(kind).None?) ==>
      r.status == ServerError && r.db.rooms == s.rooms
    ensures CreateRoomPasses(s, actor, title, description) &&
            TopicField(topic).Some? && RoomTypeField(kind).Some? ==>
      var rid := s.nextId;
      && r.status == Created
      && rid in r.db.rooms
      && r.db.rooms == s.rooms[rid := r.db.rooms[rid]]
      && var room := r.db.rooms[rid];
      && room.admin == actor && room.contributors == [actor]
      && room.messages == [] && room.links == [] && room.files == [] && room.tasks == []
      && room.title == title && room.description == description && room.createdAt == now
      && (topic.None? ==> room.topic == General)
      && (topic.Some? ==> room.topic.Name() == topic.value)
      && (kind.None? ==> room.kind == Public)
      && (kind.Some? ==> room.kind.Name() == kind.value)
      && (image.None? ==> room.image == PlaceholderImage)
      && (image.Some? ==> room.image == image.value)
  {
    if title == "" || description == "" then Outcome(BadRequest, s)
    else if actor !in s.users then Outcome(NotFound, s)
    else if TitleTaken(s, title) then Outcome(BadRequest, s)
    else
      var rid := s.nextId;
      var user := s.users[actor];
      // the room id is issued when the document is built, before saving
      var s0 := s.(nextId := s.nextId + 1);
      var s1 := SaveActivity(s0, ActivityTitle.CreateRoom, actor);
      var s2 := PutUser(s1, actor, user.(rooms := user.rooms + [rid]));
      match (TopicField(topic), RoomTypeField(kind))
      case (Some(t), Some(k)) =>
        var picture := if image.Some? then image.value else PlaceholderImage;
        Outcome(Created, s2.(rooms := s2.rooms[rid := NewRoom(title, description, picture, t, k, actor, now)]))
      case _ => Outcome(ServerError, s2)
  }

  /** The guards of the join/leave toggle pass. */
  predicate ToggleFound(s: State, actor: UserId, id: Option<RoomId>) {
    id.Some? && actor in s.users && id.value in s.rooms
  }

  /** `actor` joins room `id` when not among its contributors, and leaves
      it otherwise; the direction is decided before anything is written. */
  function JoinLeaveRoom(s: Db, actor: UserId, id: Option<RoomId>): (r: Outcome)
    ensures id.None? ==> r == Outcome(BadRequest, s)
    ensures id.Some? && !ToggleFound(s, actor, id) ==> r == Outcome(NotFound, s)
    ensures ToggleFound(s, actor, id) ==>
      var rid := id.value;
      var joining := actor !in s.rooms[rid].contributors;
      && r.status == Ok
      && rid in r.db.rooms && actor in r.db.users
      && r.db.rooms == s.rooms[rid := r.db.rooms[rid]]
      && r.db.users == s.users[actor := r.db.users[actor]]
      && r.db.notifications == s.notifications
      // membership flips on both sides, for the actor and nobody else
      && (actor in r.db.rooms[rid].contributors <==> joining)
      && (rid in r.db.users[actor].rooms <==> joining)
      && (forall v :: v != actor ==> (v in r.db.rooms[rid].contributors <==> v in s.rooms[rid].contributors))
      && (forall q :: q != rid ==> (q in r.db.users[actor].rooms <==> q in s.users[actor].rooms))
      && (joining ==> r.db.rooms[rid].contributors == s.rooms[rid].contributors + [actor])
      && (joining ==> r.db.users[actor].rooms == s.users[actor].rooms + [rid])
      && (!joining ==> r.db.rooms[rid].contributors == Pull(s.rooms[rid].contributors, actor))
      && (!joining ==> r.db.users[actor].rooms == Pull(s.users[actor].rooms, rid))
      // no other field of the room or the user changes, except that the
      // user's activity list gains the new entry
      && r.db.rooms[rid] == s.rooms[rid].(contributors := r.db.rooms[rid].contributors)
      && Logged(s.activities, r.db.activities, if joining then JoinRoom else LeaveRoom, actor)
      && r.db.users[actor] == s.users[actor].(rooms := r.db.users[actor].rooms,
           activities := s.users[actor].activities + [r.db.activities[|s.activities|].id])
  {
    if id.None? then Outcome(BadRequest, s)
    else if !ToggleFound(s, actor, id) then Outcome(NotFound, s)
    else
      var rid := id.value;
      var room, user := s.rooms[rid], s.users[actor];
      var joining := actor !in room.contributors;
      var contributors := if joining then room.contributors + [actor] else Pull(room.contributors, actor);
      var rooms := if joining then user.rooms + [rid] else Pull(user.rooms, rid);
      var s1 := PutRoom(s, rid, room.(contributors := contributors));
      var s2 := PutUser(s1, actor, user.(rooms := rooms, activities := user.activities + [s.nextId]));
      Outcome(Ok, SaveActivity(s2, if joining then JoinRoom else LeaveRoom, actor))
  }

  /** Joining and then leaving again, starting from a state where the actor
      is on neither side, restores the room and the user's room list; the
      log records the join and then the leave. */
  lemma JoinThenLeaveRestores(s: Db, actor: UserId, rid: RoomId)
    requires actor in s.users && rid in s.rooms
    requires actor !in s.rooms[rid].contributors && rid !in s.users[actor].rooms
    ensures var s1 := JoinLeaveRoom(s, actor, Some(rid)).db;
      var s2 := JoinLeaveRoom(s1, actor, Some(rid)).db;
      && s2.rooms == s.rooms
      && actor in s2.users && s2.users[actor].rooms == s.users[actor].rooms
      && s2.notifications == s.notifications
      && |s2.activities| == |s.activities| + 2
      && s2.activities[..|s.activities|] == s.activities
      && s2.activities[|s.activities|].title == JoinRoom
      && s2.activities[|s.activities| + 1].title == LeaveRoom
  {
    var s1 := JoinLeaveRoom(s, actor, Some(rid)).db;
    var s2 := JoinLeaveRoom(s1, actor, Some(rid)).db;
    PullUndoesPush(s.rooms[rid].contributors, actor);
    PullUndoesPush(s.users[actor].rooms, rid);
    assert s2.rooms[rid] == s.rooms[rid];
    assert s2.activities[..|s1.activities|] == s1.activities;
    assert s2.activities[..|s.activities|] == s1.activities[..|s.activities|];
  }

  // ----------------------------------------------------------- messages

  /** `actor` posts a message in room `id`. */
  function SendMessage(s: Db, actor: UserId, id: Option<RoomId>, body: string): (r: Outcome)
    ensures id.None? || body == "" ==> r == Outcome(BadRequest, s)
    ensures id.Some? && body != "" && id.value !in s.rooms ==> r == Outcome(NotFound, s)
    ensures id.Some? && body != "" && id.value in s.rooms ==>
      var rid := id.value;
      && r.status == Ok
      && rid in r.db.rooms
      && r.db.rooms == s.rooms[rid := r.db.rooms[rid]]
      && r.db.rooms[rid] == s.rooms[rid].(messages := s.rooms[rid].messages + [Message(actor, body)])
      && r.db.users == s.users && r.db.notifications == s.notifications
      && r.db.activities == s.activities
  {
    if id.None? || body == "" then Outcome(BadRequest, s)
    else if id.value !in s.rooms then Outcome(NotFound, s)
    else
      var room := s.rooms[id.value];
      Outcome(Ok, PutRoom(s, id.value, room.(messages := room.messages + [Message(actor, body)])))
  }

  // -------------------------------------------------------------- links

  const SecureScheme: string := "https://"

  /** `actor` adds a named link to room `id`; only https links are taken. */
  function CreateLink(s: Db, actor: UserId, id: Option<RoomId>, name: string, url: string): (r: Outcome)
    ensures name == "" || url == "" || id.None? ==> r == Outcome(BadRequest, s)
    ensures !(SecureScheme <= url) ==> r == Outcome(BadRequest, s)
    ensures name != "" && url != "" && id.Some? && SecureScheme <= url && id.value !in s.rooms ==>
      r == Outcome(NotFound, s)
    ensures name != "" && url != "" && id.Some? && SecureScheme <= url && id.value in s.rooms ==>
      var rid := id.value;
      var links := s.rooms[rid].links;
      && r.status == Created
      && rid in r.db.rooms
      && r.db.rooms == s.rooms[rid := r.db.rooms[rid]]
      && r.db.rooms[rid] == s.rooms[rid].(links := r.db.rooms[rid].links)
      && |r.db.rooms[rid].links| == |links| + 1
      && r.db.rooms[rid].links[..|links|] == links
      && r.db.rooms[rid].links[|links|] == Link(s.nextId, name, url)
      && Logged(s.activities, r.db.activities, ActivityTitle.CreateLink, actor)
      && r.db.users == s.users && r.db.notifications == s.notifications
  {
    if name == "" || url == "" then Outcome(BadRequest, s)
    else if id.None? then Outcome(BadRequest, s)
    else if !(SecureScheme <= url) then Outcome(BadRequest, s)
    else if id.value !in s.rooms then Outcome(NotFound, s)
    else
      var room := s.rooms[id.value];
      var s1 := s.(nextId := s.nextId + 1);
      var s2 := PutRoom(s1, id.value, room.(links := room.links + [Link(s.nextId, name, url)]));
      Outcome(Created, SaveActivity(s2, ActivityTitle.CreateLink, actor))
  }

  /** The links whose id differs from `target`, each as often as before;
      WithoutLinkConcat shows they keep their original order. */
  function WithoutLink(links: seq<Link>, target: LinkId): (r: seq<Link>)
    ensures forall l :: l in r <==> l in links && l.id != target
    ensures forall l :: multiset(r)[l] == if l.id == target then 0 else multiset(links)[l]
    ensures |r| <= |links|
  {
    if |links| == 0 then []
    else
      assert links == [links[0]] + links[1..];
      if links[0].id == target then WithoutLink(links[1..], target)
      else [links[0]] + WithoutLink(links[1..], target)
  }

  /** Removing by id from a concatenation removes from each part and keeps
      the parts in place, so the surviving links keep their order. */
  lemma {:induction false} WithoutLinkConcat(a: seq<Link>, b: seq<Link>, target: LinkId)
    ensures WithoutLink(a + b, target) == WithoutLink(a, target) + WithoutLink(b, target)
  {
    if |a| > 0 {
      assert (a + b)[0] == a[0];
      assert (a + b)[1..] == a[1..] + b;
      WithoutLinkConcat(a[1..], b, target);
    } else {
      assert a + b == b;
    }
  }

  /** `actor` removes the link `linkId` from room `id`; the answer and the
      log entry do not depend on whether such a link existed. */
  function DeleteLink(s: Db, actor: UserId, id: Option<RoomId>, linkId: Option<LinkId>): (r: Outcome)
    ensures id.None? ==> r == Outcome(BadRequest, s)
    ensures id.Some? && id.value !in s.rooms ==> r == Outcome(NotFound, s)
    ensures id.Some? && id.value in s.rooms ==>
      var rid := id.value;
      var links := s.rooms[rid].links;
      && r.status == Ok
      && rid in r.db.rooms
      && r.db.rooms == s.rooms[rid := r.db.rooms[rid]]
      && r.db.rooms[rid] == s.rooms[rid].(links := r.db.rooms[rid].links)
      && (forall l :: l in r.db.rooms[rid].links <==>
            l in links && (linkId.None? || l.id != linkId.value))
      && (forall l :: multiset(r.db.rooms[rid].links)[l] ==
            if linkId.Some? && l.id == linkId.value then 0 else multiset(links)[l])
      && r.db.rooms[rid].links == (if linkId.Some? then WithoutLink(links, linkId.value) else links)
      && Logged(s.activities, r.db.activities, ActivityTitle.DeleteLink, actor)
      && r.db.users == s.users && r.db.notifications == s.notifications
  {
    if id.None? then Outcome(BadRequest, s)
    else if id.value !in s.rooms then Outcome(NotFound, s)
    else
      var room := s.rooms[id.value];
      var links := if linkId.Some? then WithoutLink(room.links, linkId.value) else room.links;
      var s1 := PutRoom(s, id.value, room.(links := links));
      Outcome(Ok, SaveActivity(s1, ActivityTitle.DeleteLink, actor))
  }

  /** Removing an id no link carries keeps every link. */
  lemma {:induction false} WithoutAbsentLink(links: seq<Link>, target: LinkId)
    requires forall i :: 0 <= i < |links| ==> links[i].id != target
    ensures WithoutLink(links, target) == links
  {
    if |links| > 0 {
      WithoutAbsentLink(links[1..], target);
      assert links == [links[0]] + links[1..];
    }
  }

  /** Removing the id of a link appended last drops that link and keeps
      the others. */
  lemma {:induction false} WithoutAppendedLink(links: seq<Link>, l: Link)
    ensures WithoutLink(links + [l], l.id) == WithoutLink(links, l.id)
  {
    if |links| == 0 {
      assert WithoutLink([l][1..], l.id) == [];
    } else {
      assert (links + [l])[1..] == links[1..] + [l];
      WithoutAppendedLink(links[1..], l);
    }
  }

  /** Deleting the link just created restores the room's links, when no
      earlier link carried the id the new one was given. */
  lemma CreateThenDeleteLinkRestores(s: Db, actor: UserId, rid: RoomId, name: string, url: string)
    requires rid in s.rooms && name != "" && SecureScheme <= url
    requires forall i :: 0 <= i < |s.rooms[rid].links| ==> s.rooms[rid].links[i].id != s.nextId
    ensures var created := CreateLink(s, actor, Some(rid), name, url).db;
      DeleteLink(created, actor, Some(rid), Some(s.nextId)).db.rooms == s.rooms
  {
    var links := s.rooms[rid].links;
    var l := Link(s.nextId, name, url);
    var created := CreateLink(s, actor, Some(rid), name, url).db;
    assert created.rooms[rid].links == links + [l];
    WithoutFreshLink(links, l);
    var deleted := DeleteLink(created, actor, Some(rid), Some(s.nextId)).db;
    assert deleted.rooms[rid] == s.rooms[rid];
  }

  /** Removing by id a link appended with an id no other link carries
      gives back the links before it. */
  lemma WithoutFreshLink(links: seq<Link>, l: Link)
    requires forall i :: 0 <= i < |links| ==> links[i].id != l.id
    ensures WithoutLink(links + [l], l.id) == links
  {
    WithoutAppendedLink(links, l);
    WithoutAbsentLink(links, l.id);
  }

  // -------------------------------------------------------------- tasks

  /** `actor` adds a task, assigned to an existing user, to room `id`. */
  function CreateTask(s: Db, actor: UserId, id: Option<RoomId>, title: string, description: string,
                      assignee: Option<UserId>, deadline: Option<nat>): (r: Outcome)
    ensures title == "" ==> r == Outcome(BadRequest, s)
    ensures title != "" && (assignee.None? || assignee.value !in s.users) ==> r == Outcome(NotFound, s)
    ensures title != "" && assignee.Some? && assignee.value in s.users && id.None? ==>
      r == Outcome(BadRequest, s)
    ensures title != "" && assignee.Some? && assignee.value in s.users && id.Some? && id.value !in s.rooms ==>
      r == Outcome(NotFound, s)
    ensures title != "" && assignee.Some? && assignee.value in s.users && id.Some? && id.value in s.rooms ==>
      var rid := id.value;
      var tasks := s.rooms[rid].tasks;
      && r.status == Created
      && rid in r.db.rooms
      && r.db.rooms == s.rooms[rid := r.db.rooms[rid]]
      && r.db.rooms[rid] == s.rooms[rid].(tasks := r.db.rooms[rid].tasks)
      && |r.db.rooms[rid].tasks| == |tasks| + 1
      && r.db.rooms[rid].tasks[..|tasks|] == tasks
      && var t := r.db.rooms[rid].tasks[|tasks|];
      && t.title == title && t.description == description
      && t.assignedTo == assignee.value && t.deadline == deadline
      && t.status == NotStarted
      && Logged(s.activities, r.db.activities, ActivityTitle.CreateTask, actor)
      && r.db.users == s.users && r.db.notifications == s.notifications
  {
    if title == "" then Outcome(BadRequest, s)
    else if assignee.None? || assignee.value !in s.users then Outcome(NotFound, s)
    else if id.None? then Outcome(BadRequest, s)
    else if id.value !in s.rooms then Outcome(NotFound, s)
    else
      var room := s.rooms[id.value];
      var task := NewTask(s.nextId, title, description, assignee.value, deadline);
      var s1 := s.(nextId := s.nextId + 1);
      var s2 := PutRoom(s1, id.value, room.(tasks := room.tasks + [task]));
      Outcome(Created, SaveActivity(s2, ActivityTitle.CreateTask, actor))
  }

  /** The position of the first task with id `target`, if any. */
  function FindTask(tasks: seq<Task>, target: TaskId): (r: Option<nat>)
    ensures r.None? ==> forall j :: 0 <= j < |tasks| ==> tasks[j].id != target
    ensures r.Some? ==> r.value < |tasks| && tasks[r.value].id == target
    ensures r.Some? ==> forall j :: 0 <= j < r.value ==> tasks[j].id != target
  {
    if |tasks| == 0 then None
    else if tasks[0].id == target then Some(0)
    else match FindTask(tasks[1..], target)
      case None => None
      case Some(k) => Some(k + 1)
  }

  /** The guards of a status update that look up the room and the task. */
  predicate TaskFound(s: State, id: Option<RoomId>, taskId: Option<TaskId>, status: string) {
    && id.Some? && id.value in s.rooms
    && taskId.Some? && status != ""
    && FindTask(s.rooms[id.value].tasks, taskId.value).Some?
  }

  /** Whether a room's tasks pass validation does not depend on any task's
      status. */
  lemma StatusKeepsCompleteness(tasks: seq<Task>, i: nat, st: TaskStatus)
    requires i < |tasks|
    ensures TasksComplete(tasks[i := tasks[i].(status := st)]) <==> TasksComplete(tasks)
  {
    var tasks' := tasks[i := tasks[i].(status := st)];
    if TasksComplete(tasks) {
      forall t | t in tasks' ensures t.title != "" && t.description != "" {
        var j :| 0 <= j < |tasks'| && tasks'[j] == t;
        assert tasks[j] in tasks;
      }
    }
    if TasksComplete(tasks') {
      forall t | t in tasks ensures t.title != "" && t.description != "" {
        var j :| 0 <= j < |tasks| && tasks[j] == t;
        assert tasks'[j] in tasks';
      }
    }
  }

  /** `actor` sets the status of task `taskId` in room `id`. The room fails
      validation on save when the status is outside the enumeration or when
      any of its tasks lacks a title or description; the log entry written
      alongside still lands. */
  function UpdateTaskStatus(s: Db, actor: UserId, id: Option<RoomId>, taskId: Option<TaskId>,
                            status: string): (r: Outcome)
    ensures id.None? ==> r == Outcome(BadRequest, s)
    ensures id.Some? && id.value !in s.rooms ==> r == Outcome(NotFound, s)
    ensures id.Some? && id.value in s.rooms && (taskId.None? || status == "") ==>
      r == Outcome(BadRequest, s)
    ensures (id.Some? && id.value in s.rooms && taskId.Some? && status != "" &&
             !TaskFound(s, id, taskId, status)) ==> r == Outcome(NotFound, s)
    ensures TaskFound(s, id, taskId, status) ==>
      && Logged(s.activities, r.db.activities, ActivityTitle.UpdateTaskStatus, actor)
      && r.db.users == s.users && r.db.notifications == s.notifications
    ensures TaskFound(s, id, taskId, status) &&
            (status !in TaskStatusNames || !TasksComplete(s.rooms[id.value].tasks)) ==>
      r.status == ServerError && r.db.rooms == s.rooms
    ensures TaskFound(s, id, taskId, status) && status in TaskStatusNames &&
            TasksComplete(s.rooms[id.value].tasks) ==>
      var rid := id.value;
      var tasks := s.rooms[rid].tasks;
      var i := FindTask(tasks, taskId.value).value;
      && r.status == Ok
      && rid in r.db.rooms
      && r.db.rooms == s.rooms[rid := r.db.rooms[rid]]
      && r.db.rooms[rid] == s.rooms[rid].(tasks := r.db.rooms[rid].tasks)
      && |r.db.rooms[rid].tasks| == |tasks|
      && r.db.rooms[rid].tasks[i].status.Name() == status
      && r.db.rooms[rid].tasks[i] == tasks[i].(status := r.db.rooms[rid].tasks[i].status)
      && (forall j :: 0 <= j < |tasks| && j != i ==> r.db.rooms[rid].tasks[j] == tasks[j])
  {
    if id.None? then Outcome(BadRequest, s)
    else if id.value !in s.rooms then Outcome(NotFound, s)
    else if taskId.None? || status == "" then Outcome(BadRequest, s)
    else
      var room := s.rooms[id.value];
      match FindTask(room.tasks, taskId.value)
      case None => Outcome(NotFound, s)
      case Some(i) =>
        var logged := SaveActivity(s, ActivityTitle.UpdateTaskStatus, actor);
        match ParseTaskStatus(status)
        case None => Outcome(ServerError, logged)
        case Some(st) =>
          var tasks := room.tasks[i := room.tasks[i].(status := st)];
          StatusKeepsCompleteness(room.tasks, i, st);
          if !TasksComplete(tasks) then Outcome(ServerError, logged)
          else Outcome(Ok, PutRoom(logged, id.value, room.(tasks := tasks)))
  }

  /** Repeating a successful status update leaves the room as the first
      update left it, and logs the update once more. */
  lemma UpdateTaskStatusIdempotent(s: Db, actor: UserId, id: Option<RoomId>, taskId: Option<TaskId>,
                                   status: string)
    ensures var once := UpdateTaskStatus(s, actor, id, taskId, status);
      var twice := UpdateTaskStatus(once.db, actor, id, taskId, status);
      once.status == Ok ==>
        && twice.status == Ok
        && twice.db.rooms == once.db.rooms
        && Logged(once.db.activities, twice.db.activities, ActivityTitle.UpdateTaskStatus, actor)
  {
    var once := UpdateTaskStatus(s, actor, id, taskId, status);
    if once.status == Ok {
      var rid := id.value;
      var tasks := s.rooms[rid].tasks;
      var i := FindTask(tasks, taskId.value).value;
      var tasks' := once.db.rooms[rid].tasks;
      var st := ParseTaskStatus(status).value;
      assert tasks' == tasks[i := tasks[i].(status := st)];
      assert FindTask(tasks', taskId.value) == Some(i);
      assert tasks'[i := tasks'[i].(status := st)] == tasks';
    }
  }

  // ------------------------------------------------------- recent rooms

  /** How many rooms the recent-rooms listing returns at most. */
  const RecentLimit: nat := 3

  /** When room `k` was created (0 for an unknown key). */
  function CreatedAt(rooms: map<RoomId, Room>, k: RoomId): nat {
    if k in rooms then rooms[k].createdAt else 0
  }

  /** The rooms in `xs` are listed newest first. */
  predicate NewestFirst(rooms: map<RoomId, Room>, xs: seq<RoomId>) {
    forall i, j :: 0 <= i < j < |xs| ==> CreatedAt(rooms, xs[j]) <= CreatedAt(rooms, xs[i])
  }

  /** No room of `others` is newer than a room listed in `xs`. */
  predicate NoneNewer(rooms: map<RoomId, Room>, others: set<RoomId>, xs: seq<RoomId>) {
    forall k, i :: k in others && 0 <= i < |xs| ==> CreatedAt(rooms, k) <= CreatedAt(rooms, xs[i])
  }

  /** A newest room among `candidates`. */
  method Newest(rooms: map<RoomId, Room>, candidates: set<RoomId>) returns (best: RoomId)
    requires candidates != {}
    ensures best in candidates
    ensures forall c :: c in candidates ==> CreatedAt(rooms, c) <= CreatedAt(rooms, best)
  {
    best :| best in candidates;
    var todo := candidates - {best};
    while todo != {}
      invariant todo <= candidates && best in candidates
      invariant forall c :: c in candidates && c !in todo ==> CreatedAt(rooms, c) <= CreatedAt(rooms, best)
      decreases todo
    {
      var c :| c in todo;
      if CreatedAt(rooms, c) > CreatedAt(rooms, best) {
        best := c;
      }
      todo := todo - {c};
    }
  }

  /** The loop invariant of RecentRooms: `recent` lists the rooms already
      taken, newest first, and nothing still remaining is newer. */
  ghost predicate Selected(rooms: map<RoomId, Room>, recent: seq<RoomId>,
                     taken: set<RoomId>, remaining: set<RoomId>) {
    && taken !! remaining && taken + remaining == rooms.Keys
    && |taken| == |recent|
    && (forall k :: k in taken <==> k in recent)
    && Distinct(recent)
    && NewestFirst(rooms, recent)
    && NoneNewer(rooms, remaining, recent)
  }

  /** Appending a room no newer than any listed keeps the list newest first. */
  lemma AppendOldest(rooms: map<RoomId, Room>, recent: seq<RoomId>, best: RoomId)
    requires NewestFirst(rooms, recent)
    requires forall i :: 0 <= i < |recent| ==> CreatedAt(rooms, best) <= CreatedAt(rooms, recent[i])
    ensures NewestFirst(rooms, recent + [best])
  {
    var recent' := recent + [best];
    forall i, j | 0 <= i < j < |recent'|
      ensures CreatedAt(rooms, recent'[j]) <= CreatedAt(rooms, recent'[i])
    {
      assert recent'[i] == recent[i];
      if j < |recent| {
        assert recent'[j] == recent[j];
      }
    }
  }

  /** Taking a newest remaining room leaves nothing remaining newer than
      any listed room. */
  lemma AppendNewest(rooms: map<RoomId, Room>, recent: seq<RoomId>, remaining: set<RoomId>, best: RoomId)
    requires NoneNewer(rooms, remaining, recent)
    requires forall c :: c in remaining ==> CreatedAt(rooms, c) <= CreatedAt(rooms, best)
    ensures NoneNewer(rooms, remaining - {best}, recent + [best])
  {
    var recent' := recent + [best];
    forall k, i | k in remaining - {best} && 0 <= i < |recent'|
      ensures CreatedAt(rooms, k) <= CreatedAt(rooms, recent'[i])
    {
      if i < |recent| {
        assert recent'[i] == recent[i];
      }
    }
  }

  /** Taking a newest remaining room keeps the invariant. */
  lemma TakeNewest(rooms: map<RoomId, Room>, recent: seq<RoomId>,
                   taken: set<RoomId>, remaining: set<RoomId>, best: RoomId)
    requires Selected(rooms, recent, taken, remaining)
    requires best in remaining
    requires forall c :: c in remaining ==> CreatedAt(rooms, c) <= CreatedAt(rooms, best)
    ensures Selected(rooms, recent + [best], taken + {best}, remaining - {best})
  {
    assert best !in recent;
    PushKeepsDistinct(recent, best);
    AppendOldest(rooms, recent, best);
    AppendNewest(rooms, recent, remaining, best);
    TakeMoves(rooms.Keys, recent, taken, remaining, best);
  }

  /** Moving `best` from the remaining rooms to the taken ones keeps the two
      sets a partition of the keys, in step with the list. */
  lemma TakeMoves(keys: set<RoomId>, recent: seq<RoomId>,
                  taken: set<RoomId>, remaining: set<RoomId>, best: RoomId)
    requires taken !! remaining && taken + remaining == keys
    requires |taken| == |recent| && (forall k :: k in taken <==> k in recent)
    requires best in remaining
    ensures var taken', remaining' := taken + {best}, remaining - {best};
      && taken' !! remaining' && taken' + remaining' == keys
      && |taken'| == |recent + [best]|
      && (forall k :: k in taken' <==> k in recent + [best])
  {
    assert best !in taken;
    assert |taken + {best}| == |taken| + 1;
    forall k
      ensures k in taken + {best} <==> k in recent + [best]
    {
      assert k in recent + [best] <==> k in recent || k == best;
    }
  }

  /** Before anything is taken, every room remains and the invariant holds. */
  lemma SelectedStart(rooms: map<RoomId, Room>)
    ensures Selected(rooms, [], {}, rooms.Keys)
  {
  }

  /** When the selection stops (the limit is reached or no room remains),
      the list is as long as it can be and holds only stored rooms, and
      every stored room left out is no newer than any listed. */
  lemma SelectedFinal(rooms: map<RoomId, Room>, recent: seq<RoomId>,
                      taken: set<RoomId>, remaining: set<RoomId>)
    requires Selected(rooms, recent, taken, remaining)
    requires |recent| <= RecentLimit
    requires |recent| == RecentLimit || remaining == {}
    ensures |recent| == if |rooms| < RecentLimit then |rooms| else RecentLimit
    ensures Distinct(recent)
    ensures forall i :: 0 <= i < |recent| ==> recent[i] in rooms
    ensures NewestFirst(rooms, recent)
    ensures forall k, i :: k in rooms && k !in recent && 0 <= i < |recent| ==>
      CreatedAt(rooms, k) <= CreatedAt(rooms, recent[i])
  {
    assert |rooms.Keys| == |rooms|;
    assert forall i :: 0 <= i < |recent| ==> recent[i] in taken;
  }

  /** The newest rooms, newest first: as many as there are, up to the
      limit, and no room left out is newer than any room listed. Rooms
      created at the same moment may come in either order. */
  method RecentRooms(s: Db) returns (recent: seq<RoomId>)
    ensures |recent| == if |s.rooms| < RecentLimit then |s.rooms| else RecentLimit
    ensures Distinct(recent)
    ensures forall i :: 0 <= i < |recent| ==> recent[i] in s.rooms
    ensures NewestFirst(s.rooms, recent)
    ensures forall k, i :: k in s.rooms && k !in recent && 0 <= i < |recent| ==>
      CreatedAt(s.rooms, k) <= CreatedAt(s.rooms, recent[i])
  {
    var rooms := s.rooms;
    recent := [];
    var remaining := rooms.Keys;
    ghost var taken: set<RoomId> := {};
    SelectedStart(rooms);
    while |recent| < RecentLimit && remaining != {}
      invariant Selected(rooms, recent, taken, remaining)
      invariant |recent| <= RecentLimit
      decreases remaining
    {
      var best := Newest(rooms, remaining);
      TakeNewest(rooms, recent, taken, remaining, best);
      recent := recent + [best];
      taken := taken + {best};
      remaining := remaining - {best};
    }
    SelectedFinal(rooms, recent, taken, remaining);
  }
}
