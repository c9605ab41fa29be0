/** The four stores as one immutable state, the outcome of a controller,
    and the invariants the membership workflow is meant to keep. */
module Store {
  import opened Common
  import opened Schema

  /** Users, rooms and notifications keyed by id, the append-only activity
      log, and the next id the store will issue. */
  datatype State = State(
    users: map<UserId, User>,
    rooms: map<RoomId, Room>,
    notifications: map<NotificationId, Notification>,
    activities: seq<Activity>,
    nextId: nat)
  {
    /** Every stored key was issued before `nextId`, so `nextId` is unused:
        this is how the model stands for the uniqueness of ObjectIds. */
    predicate IdsIssued() {
      && (forall u :: u in users ==> u < nextId)
      && (forall r :: r in rooms ==> r < nextId)
      && (forall n :: n in notifications ==> n < nextId)
    }
  }

  /** A state the store can actually be in. */
  type Db = s: State | s.IdsIssued() witness State(map[], map[], map[], [], 0)

  /** What a controller returns: the response status and the store after it. */
  datatype Outcome = Outcome(status: Status, db: Db)

  // ------------------------------------------------------------- writes

  /** `new Notification(..).save()`: stores `n` under a fresh id. */
  function SaveNotification(s: Db, n: Notification): (r: Db)
  {
    s.(notifications := s.notifications[s.nextId := n], nextId := s.nextId + 1)
  }

  /** `new Activity(..).save()`: appends an entry under a fresh id. */
  function SaveActivity(s: Db, title: ActivityTitle, user: UserId): (r: Db)
  {
    s.(activities := s.activities + [Activity(s.nextId, title, user)], nextId := s.nextId + 1)
  }

  /** Replaces a stored room; its key must already exist. */
  function PutRoom(s: Db, id: RoomId, room: Room): (r: Db)
    requires id in s.rooms
  {
    s.(rooms := s.rooms[id := room])
  }

  /** Replaces a stored user; its key must already exist. */
  function PutUser(s: Db, id: UserId, user: User): (r: Db)
    requires id in s.users
  {
    s.(users := s.users[id := user])
  }

  /** Replaces a stored notification; its key must already exist. */
  function PutNotification(s: Db, id: NotificationId, n: Notification): (r: Db)
    requires id in s.notifications
  {
    s.(notifications := s.notifications[id := n])
  }

  // -------------------------------------------------- frame vocabulary

  /** `after` is `before` with exactly one entry appended, carrying the
      given label and actor. */
  predicate Logged(before: seq<Activity>, after: seq<Activity>, title: ActivityTitle, user: UserId) {
    && |after| == |before| + 1
    && after[..|before|] == before
    && after[|before|].title == title
    && after[|before|].user == user
  }

  // ---------------------------------------------------------- invariants

  /** A user is a contributor of a room exactly when the room is in the
      user's room list. */
  predicate MembershipSymmetric(s: State) {
    forall u, r :: u in s.users && r in s.rooms ==>
      (u in s.rooms[r].contributors <==> r in s.users[u].rooms)
  }

  /** Room references held by users were all issued by the store. */
  predicate RoomRefsIssued(s: State) {
    forall u, i :: u in s.users && 0 <= i < |s.users[u].rooms| ==> s.users[u].rooms[i] < s.nextId
  }

  /** No member is listed twice on either side of the membership relation. */
  predicate NoDuplicateMembers(s: State) {
    && (forall r :: r in s.rooms ==> Distinct(s.rooms[r].contributors))
    && (forall u :: u in s.users ==> Distinct(s.users[u].rooms))
  }

  /** The membership invariant of the workflow. */
  predicate Valid(s: State) {
    MembershipSymmetric(s) && RoomRefsIssued(s) && NoDuplicateMembers(s)
  }

  /** Every notification resolved in `s` is still stored and still resolved
      in `s'`. */
  predicate ResolutionKept(s: State, s': State) {
    forall n :: n in s.notifications && s.notifications[n].isResolved ==>
      n in s'.notifications && s'.notifications[n].isResolved
  }

  /** The activity log of `s'` extends that of `s`. */
  predicate LogExtended(s: State, s': State) {
    |s.activities| <= |s'.activities| && s'.activities[..|s.activities|] == s.activities
  }
}
