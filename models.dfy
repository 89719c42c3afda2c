/** The records of the todo service: the stored todo, the create/update
    request, the response with its two derived fields, and the two record
    transformations (replacing the mutable fields from a request, and
    building a response at a given instant). */
module Models {

  /** An instant on an integer clock, in seconds. The current instant is
      always passed in by the caller. */
  type Time = int

  datatype Option<T> = None | Some(value: T)

  /** A stored todo. An unset due date is `None`. */
  datatype Todo = Todo(
    id: int,
    title: string,
    description: string,
    completed: bool,
    priority: int,
    category: string,
    dueDate: Option<Time>,
    createdAt: Time,
    updatedAt: Time)

  /** The payload of a create or update request: the six mutable fields. No
      range or length limit is enforced on any of them by the records or the
      store. */
  datatype TodoRequest = TodoRequest(
    title: string,
    description: string,
    completed: bool,
    priority: int,
    category: string,
    dueDate: Option<Time>)

  /** The three statuses a response can carry. */
  datatype Status = InProgress | Completed | Overdue

  /** The response: the nine stored fields and the two derived ones. */
  datatype TodoResponse = TodoResponse(
    id: int,
    title: string,
    description: string,
    completed: bool,
    priority: int,
    category: string,
    dueDate: Option<Time>,
    createdAt: Time,
    updatedAt: Time,
    status: Status,
    isOverdue: bool)

  /** The label the service sends for each status. */
  function StatusLabel(s: Status): (text: string)
    ensures |text| == 3
  {
    match s
    case InProgress => "进行中"
    case Completed => "已完成"
    case Overdue => "已过期"
  }

  /** Different statuses are sent as different labels. */
  lemma StatusLabelInjective(s: Status, u: Status)
    ensures StatusLabel(s) == StatusLabel(u) <==> s == u
  {
    if s != u {
      assert StatusLabel(s)[2] != StatusLabel(u)[2] || StatusLabel(s)[0] != StatusLabel(u)[0];
    }
  }

  /** A todo is overdue at `now` when it is not completed, has a due date,
      and that due date lies strictly before `now`. */
  predicate IsOverdue(t: Todo, now: Time): (b: bool)
    ensures b ==> !t.completed && t.dueDate.Some?
    ensures !t.completed && t.dueDate.Some? ==> (b <==> now > t.dueDate.value)
  {
    !t.completed && t.dueDate.Some? && t.dueDate.value < now
  }

  /** The six mutable fields of a record, as a request that would set them. */
  function RequestOf(t: Todo): (req: TodoRequest)
    ensures req.title == t.title && req.description == t.description
    ensures req.completed == t.completed && req.priority == t.priority
    ensures req.category == t.category && req.dueDate == t.dueDate
  {
    TodoRequest(t.title, t.description, t.completed, t.priority, t.category, t.dueDate)
  }

  /** The stored fields of a response, as a record. */
  function StoredPart(r: TodoResponse): (t: Todo)
    ensures t.id == r.id && RequestOf(t) == TodoRequest(r.title, r.description, r.completed, r.priority, r.category, r.dueDate)
    ensures t.createdAt == r.createdAt && t.updatedAt == r.updatedAt
  {
    Todo(r.id, r.title, r.description, r.completed, r.priority, r.category,
         r.dueDate, r.createdAt, r.updatedAt)
  }

  /** Replaces every mutable field of `t` by the request's (a whole-record
      replacement, not a merge) and stamps the update time. */
  function FromRequest(t: Todo, req: TodoRequest, now: Time): (r: Todo)
    ensures RequestOf(r) == req
    ensures r.id == t.id && r.createdAt == t.createdAt && r.updatedAt == now
  {
    t.(title := req.title, description := req.description,
       completed := req.completed, priority := req.priority,
       category := req.category, dueDate := req.dueDate, updatedAt := now)
  }

  /** Builds the response at instant `now`: all stored fields unchanged,
      `isOverdue` as `IsOverdue` says, and a status that is "completed" for
      a completed todo, otherwise "overdue" for an overdue one, otherwise
      "in progress". */
  function ToResponse(t: Todo, now: Time): (r: TodoResponse)
    ensures StoredPart(r) == t
    ensures r.isOverdue <==> !t.completed && t.dueDate.Some? && t.dueDate.value < now
    ensures r.status == Completed <==> t.completed
    ensures r.status == Overdue <==> r.isOverdue
    ensures r.status == InProgress <==> !t.completed && !r.isOverdue
  {
    var isOverdue := IsOverdue(t, now);
    var status := if t.completed then Completed else if isOverdue then Overdue else InProgress;
    TodoResponse(t.id, t.title, t.description, t.completed, t.priority,
                 t.category, t.dueDate, t.createdAt, t.updatedAt, status, isOverdue)
  }

  /** Only the request and the clock decide the mutable fields after an
      update: two records with the same identity and creation time end up
      equal, whatever their old contents. */
  lemma FromRequestIsReplacement(t: Todo, u: Todo, req: TodoRequest, now: Time)
    requires t.id == u.id && t.createdAt == u.createdAt
    ensures FromRequest(t, req, now) == FromRequest(u, req, now)
  {
  }

  /** Re-applying a record's own fields changes only its update time. */
  lemma FromOwnRequest(t: Todo, now: Time)
    ensures FromRequest(t, RequestOf(t), now) == t.(updatedAt := now)
  {
  }

  /** A completed todo is never overdue, at any instant. */
  lemma CompletedNeverOverdue(t: Todo, now: Time)
    requires t.completed
    ensures !ToResponse(t, now).isOverdue && ToResponse(t, now).status == Completed
  {
  }

  /** Once overdue, a todo stays overdue at every later instant until it
      changes. */
  lemma OverdueIsMonotone(t: Todo, now: Time, later: Time)
    requires now <= later && ToResponse(t, now).isOverdue
    ensures ToResponse(t, later).status == Overdue
  {
  }
}
