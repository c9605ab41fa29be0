/** The request-granting controller as the source writes it. Its "already
    in room" guard compares the requester's ObjectId with each populated
    contributor's ObjectId using JavaScript `===`, which is true only for
    one and the same object; the two ids come from different queries, so
    the guard never fires. Notifications.AcceptRequest is the corrected
    controller (a membership test) that the rest of the model uses. */
module Findings {
  import opened Common
  import opened Schema
  import opened Store
  import opened Notifications

  /** Reference identity of two ObjectId instances obtained from separate
      queries: never the same object, whatever ids they hold. */
  predicate SameObject(contributor: UserId, requester: UserId) {
    false
  }

  /** Request granting with the guard as written. */
  function AcceptRequestAsWritten(s: Db, actor: UserId, id: Option<NotificationId>): (r: Outcome)
    ensures !RequestRoomFound(s, id) ==> r == Outcome(NotFound, s)
    ensures RequestRoomFound(s, id) && s.notifications[id.value].from.None? ==>
      r == Outcome(ServerError, s)
    ensures RequestFound(s, id) ==>
      var n := s.notifications[id.value];
      var u, room := n.from.value, n.room.value;
      && r.status == Ok
      && room in r.db.rooms
      && r.db.rooms[room].contributors == s.rooms[room].contributors + [u]
  {
    if !RequestRoomFound(s, id) then Outcome(NotFound, s)
    else
      var n := s.notifications[id.value];
      if n.from.None? then Outcome(ServerError, s)
      else if n.from.value !in s.users then Outcome(NotFound, s)
      else
        var contributors := s.rooms[n.room.value].contributors;
        if exists i :: 0 <= i < |contributors| && SameObject(contributors[i], n.from.value) then
          Outcome(BadRequest, s)
        else GrantRequest(s, actor, id.value)
  }

  /** Granting a request from someone who is already a contributor: as
      written it succeeds, lists the requester twice and logs a second join,
      breaking the membership invariant; the corrected controller answers
      400 and writes nothing. */
  lemma AsWrittenListsMemberTwice(s: Db, actor: UserId, id: NotificationId)
    requires Valid(s)
    requires RequestFound(s, Some(id))
    requires s.notifications[id].from.value in s.rooms[s.notifications[id].room.value].contributors
    ensures var n := s.notifications[id];
      var written := AcceptRequestAsWritten(s, actor, Some(id));
      && written.status == Ok
      && multiset(written.db.rooms[n.room.value].contributors)[n.from.value] >= 2
      && !Valid(written.db)
      && written.db.activities[|s.activities|].title == JoinRoom
    ensures AcceptRequest(s, actor, Some(id)) == Outcome(BadRequest, s)
  {
    var n := s.notifications[id];
    var u, room := n.from.value, n.room.value;
    var before := s.rooms[room].contributors;
    var written := AcceptRequestAsWritten(s, actor, Some(id));
    var after := written.db.rooms[room].contributors;
    assert after == before + [u];
    var k :| 0 <= k < |before| && before[k] == u;
    assert multiset(before)[u] >= 1;
    assert multiset(after) == multiset(before) + multiset{u};
    assert after[k] == after[|before|];
    assert !Distinct(after);
  }

  /** A concrete store on which the discrepancy shows: user 1 already
      contributes to room 2 (admin 0) and has a pending request for it. */
  function Witness(): (s: Db)
    ensures Valid(s)
  {
    var member := User("Ada", "ada@example.org", "", "", "Guest", [2], [], [], []);
    var admin := User("Bob", "bob@example.org", "", "", "Guest", [2], [], [], []);
    var room := NewRoom("Alpha", "first room", PlaceholderImage, General, Public, 0, 0);
    var request := NewNotification(Some(1), Some(0), Request, Some(2));
    State(map[0 := admin, 1 := member],
          map[2 := room.(contributors := [0, 1])],
          map[3 := request],
          [],
          4)
  }

  /** On the witness store, granting request 3 as written answers 200 and
      lists user 1 twice in room 2. */
  lemma WitnessShowsDuplicate()
    ensures AcceptRequestAsWritten(Witness(), 0, Some(3)).status == Ok
    ensures AcceptRequestAsWritten(Witness(), 0, Some(3)).db.rooms[2].contributors == [0, 1, 1]
    ensures AcceptRequest(Witness(), 0, Some(3)).status == BadRequest
  {
  }
}
