/** The document shapes of the four stores (users, rooms, notifications,
    activities) with the enumerations and defaults their schemas declare. */
module Schema {
  import opened Common

  // Every identifier is an ObjectId issued by the store; the model issues
  // them from one counter (see Store.State.nextId).
  type UserId = nat
  type RoomId = nat
  type NotificationId = nat
  type ActivityId = nat
  type LinkId = nat
  type TaskId = nat

  // ---------------------------------------------------------------- rooms

  /** The seven room topics the room schema admits. */
  datatype Topic = Design | Technology | Gaming | Education | IT | General | Business {
    function Name(): string {
      match this
      case Design => "Design"
      case Technology => "Technology"
      case Gaming => "Gaming"
      case Education => "Education"
      case IT => "IT"
      case General => "General"
      case Business => "Business"
    }
  }

  const TopicNames: set<string> :=
    {"Design", "Technology", "Gaming", "Education", "IT", "General", "Business"}

  /** The value the `topic` path stores for a request value: absent means
      the default, a listed name is kept, anything else fails validation. */
  function TopicField(input: Option<string>): (r: Option<Topic>)
    ensures input.None? ==> r == Some(General)
    ensures input.Some? ==> (r.Some? <==> input.value in TopicNames)
    ensures input.Some? && r.Some? ==> r.value.Name() == input.value
  {
    match input
    case None => Some(General)
    case Some(name) =>
      if name == "Design" then Some(Design)
      else if name == "Technology" then Some(Technology)
      else if name == "Gaming" then Some(Gaming)
      else if name == "Education" then Some(Education)
      else if name == "IT" then Some(IT)
      else if name == "General" then Some(General)
      else if name == "Business" then Some(Business)
      else None
  }

  /** Room visibility. */
  datatype RoomType = Public | Private {
    function Name(): string {
      match this
      case Public => "public"
      case Private => "private"
    }
  }

  /** The value the room `type` path stores: default "public", and only
      "public" or "private" pass validation. */
  function RoomTypeField(input: Option<string>): (r: Option<RoomType>)
    ensures input.None? ==> r == Some(Public)
    ensures input.Some? ==> (r.Some? <==> input.value in {"public", "private"})
    ensures input.Some? && r.Some? ==> r.value.Name() == input.value
  {
    match input
    case None => Some(Public)
    case Some(name) =>
      if name == "public" then Some(Public)
      else if name == "private" then Some(Private)
      else None
  }

  /** Progress of a task. */
  datatype TaskStatus = NotStarted | InProgress | Finished {
    function Name(): string {
      match this
      case NotStarted => "not started"
      case InProgress => "in progress"
      case Finished => "finished"
    }
  }

  const TaskStatusNames: set<string> := {"not started", "in progress", "finished"}

  /** Validation of a status string written into a task: exactly the three
      listed names are accepted. */
  function ParseTaskStatus(name: string): (r: Option<TaskStatus>)
    ensures r.Some? <==> name in TaskStatusNames
    ensures r.Some? ==> r.value.Name() == name
  {
    if name == "not started" then Some(NotStarted)
    else if name == "in progress" then Some(InProgress)
    else if name == "finished" then Some(Finished)
    else None
  }

  /** The image a room gets when none is uploaded. */
  const PlaceholderImage: string :=
    "https://linda-hoang.com/wp-content/uploads/2014/10/img-placeholder-dark.jpg"

  datatype Message = Message(sender: UserId, body: string)

  datatype Link = Link(id: LinkId, name: string, url: string)

  datatype File = File(sender: UserId, url: string)

  datatype Task = Task(
    id: TaskId,
    title: string,
    description: string,
    assignedTo: UserId,
    deadline: Option<nat>,
    status: TaskStatus)

  /** Every task passes the `required` validators of the task sub-schema:
      its title and description are non-empty (the assignee and the status
      are always present in this model). Saving a room validates all of
      its tasks. */
  predicate TasksComplete(tasks: seq<Task>) {
    forall t :: t in tasks ==> t.title != "" && t.description != ""
  }

  datatype Room = Room(
    title: string,
    description: string,
    image: string,
    topic: Topic,
    kind: RoomType,
    admin: UserId,
    contributors: seq<UserId>,
    messages: seq<Message>,
    links: seq<Link>,
    files: seq<File>,
    tasks: seq<Task>,
    createdAt: nat)

  /** A room document as first saved: the creator is admin and sole
      contributor, and every embedded collection starts empty. */
  function NewRoom(title: string, description: string, image: string, topic: Topic,
                   kind: RoomType, creator: UserId, createdAt: nat): (r: Room)
  {
    Room(title, description, image, topic, kind, creator, [creator], [], [], [], [], createdAt)
  }

  /** A task as pushed into a room: its status takes the schema default. */
  function NewTask(id: TaskId, title: string, description: string,
                   assignee: UserId, deadline: Option<nat>): (t: Task)
  {
    Task(id, title, description, assignee, deadline, NotStarted)
  }

  // -------------------------------------------------------- notifications

  /** The seven notification kinds of the notification type union. */
  datatype NotificationType =
    | Invitation
    | Request
    | RequestAccepted
    | RequestRejected
    | Follow
    | InvitationAccepted
    | InvitationRejected
  {
    /** Whether the notification schema's own enum lists the kind; the two
        invitation outcomes are missing from it and only ever reach the
        store through an unvalidated in-place update. */
    predicate InSchemaEnum() {
      !(this == InvitationAccepted || this == InvitationRejected)
    }
  }

  /** `type` is required; `from`, `to` and `room` are optional references. */
  datatype Notification = Notification(
    from: Option<UserId>,
    to: Option<UserId>,
    kind: NotificationType,
    room: Option<RoomId>,
    isResolved: bool,
    isRead: bool)

  /** A notification as first saved: unread and unresolved by default. */
  function NewNotification(from: Option<UserId>, to: Option<UserId>,
                           kind: NotificationType, room: Option<RoomId>): (n: Notification)
  {
    Notification(from, to, kind, room, false, false)
  }

  // ----------------------------------------------------------- activities

  /** The closed vocabulary of activity labels the controllers record. */
  datatype ActivityTitle =
    | CreateRoom
    | CreateLink
    | DeleteLink
    | CreateTask
    | UpdateTaskStatus
    | JoinRoom
    | LeaveRoom
    | SendInvite
    | RejectInvite
    | RequestRoom

  /** A log entry. The controllers also pass the room, but the activity
      schema declares only `title` and `user`, so the room is not stored. */
  datatype Activity = Activity(id: ActivityId, title: ActivityTitle, user: UserId)

  // ---------------------------------------------------------------- users

  const SpecializationNames: set<string> := {
    "Software Engineer", "Data Scientist", "Business Analyst", "Designer",
    "Project Manager", "Front-End Developer", "Back-End Developer",
    "Full Stack Developer", "QA Engineer", "Dev-Ops Engineer", "Guest"
  }

  datatype User = User(
    name: string,
    email: string,
    about: string,
    avatar: string,
    specialization: string,
    rooms: seq<RoomId>,
    activities: seq<ActivityId>,
    following: seq<UserId>,
    followers: seq<UserId>)
}
