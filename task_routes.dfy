/**
 * routes/taskRoutes.js: create, list, get, update and delete tasks, all scoped to the
 * organization in the caller's token. Create, update and delete sit behind `isAdmin`; a
 * referenced program must belong to the caller's organization; deleting a task also deletes
 * that task's assignments in the same organization.
 */
module TaskRoutes {
  import opened Wrappers
  import opened JsString
  import Json
  import opened Http
  import opened Auth
  import opened TaskModel

  /** A program, with the organization its lookup filters on. */
  datatype Program = Program(id: string, name: Option<string>, organizationId: Option<string>)

  /** An assignment, with the two paths the cascading delete filters on. */
  datatype Assignment = Assignment(
    id: string,
    taskId: Option<string>,
    organizationId: Option<string>,
    title: Option<string>,
    assignedTo: Option<string>)

  /** The request body of create and update. */
  datatype TaskBody = TaskBody(
    title: Option<string>,
    description: Option<string>,
    requiredSkills: Option<string>,
    programId: Option<string>,
    deadline: Option<int>)

  const OrgMissingForAdmin := "Organization context missing for admin."
  const OrgMissing := "Organization context missing."
  const FieldsRequired := "Title, description, and required skills are required."
  const ProgramNotFound := "Program not found or does not belong to your organization."
  const TaskNotFound := "Task not found in your organization."
  const TaskNotUpdated := "Task not found in your organization or update failed."
  const CreateFailed := "Server error while creating task."
  const UpdateFailed := "Server error while updating task."
  const TaskDeleted := "Task and related assignments deleted successfully."

  /** `res.status(500).json({ success: false, message, error: err.message })`; the error lists the failing paths. */
  function ServerError(message: string, paths: seq<string>): (r: Response)
    ensures r.status == 500 && r.body.Obj? && r.body.fields.Keys == {"success", "message", "error"}
    ensures r.body.fields["success"] == Json.Bool(false) && r.body.fields["message"] == Json.Str(message)
    ensures var e := r.body.fields["error"];
            e.Arr? && |e.items| == |paths| && forall i :: 0 <= i < |paths| ==> e.items[i] == Json.Str(paths[i])
  {
    Response(500, Json.Obj(map[
      "success" := Json.Bool(false),
      "message" := Json.Str(message),
      "error" := Json.Arr(seq(|paths|, i requires 0 <= i < |paths| => Json.Str(paths[i])))]))
  }

  // ----- the middleware chain -----

  /** `verifyToken`, then `isAdmin` on the routes that list it. */
  function GateOutcome(header: Option<string>, verify: Verifier, adminOnly: bool): (o: Outcome)
    ensures o.Next? <==> TokenOutcome(header, verify).Next?
                         && (adminOnly ==> TokenOutcome(header, verify).user.role == Some("admin"))
    ensures o.Next? ==> o.user == TokenOutcome(header, verify).user
    ensures o.Halt? ==> o.response.status == 401 || o.response.status == 403
  {
    match TokenOutcome(header, verify)
    case Halt(response) => Halt(response)
    case Next(user) => if adminOnly then AdminOutcome(Some(user)) else Next(user)
  }

  /**
   * Running the chain on the request: `req.user` is set to the decoded payload whenever the
   * token is accepted, even when `isAdmin` then refuses, and is left as it was otherwise.
   */
  method Authorize(req: Request, verify: Verifier, adminOnly: bool) returns (o: Outcome)
    modifies req
    ensures o == GateOutcome(req.authorization, verify, adminOnly)
    ensures o.Next? ==> req.user == Some(o.user)
    ensures TokenOutcome(req.authorization, verify).Next? ==> req.user == Some(TokenOutcome(req.authorization, verify).user)
    ensures TokenOutcome(req.authorization, verify).Halt? ==> req.user == old(req.user)
  {
    o := VerifyToken(req, verify);
    if o.Next? && adminOnly {
      o := IsAdmin(req);
    }
  }

  // ----- queries -----

  /** `Program.findOne({ _id, organizationId })`. */
  function FindProgram(programs: seq<Program>, id: string, org: string): (p: Option<Program>)
    ensures p.Some? ==> p.value in programs && p.value.id == id && p.value.organizationId == Some(org)
    ensures p.None? <==> forall q :: q in programs ==> !(q.id == id && q.organizationId == Some(org))
    decreases |programs|
  {
    if programs == [] then None
    else if programs[0].id == id && programs[0].organizationId == Some(org) then Some(programs[0])
    else
      assert forall q :: q in programs[1..] ==> q in programs;
      FindProgram(programs[1..], id, org)
  }

  /** `Task.findOne({ _id, organizationId })`: the first task, in stored order, with both. */
  function FirstTask(tasks: seq<Task>, id: string, org: string): (k: Option<nat>)
    ensures k.Some? ==> k.value < |tasks| && tasks[k.value].id == id && tasks[k.value].organizationId == org
    ensures k.Some? ==> forall j :: 0 <= j < k.value ==> !(tasks[j].id == id && tasks[j].organizationId == org)
    ensures k.None? <==> forall j :: 0 <= j < |tasks| ==> !(tasks[j].id == id && tasks[j].organizationId == org)
    decreases |tasks|
  {
    if tasks == [] then None
    else if tasks[0].id == id && tasks[0].organizationId == org then Some(0)
    else match FirstTask(tasks[1..], id, org)
      case None => None
      case Some(k) => Some(k + 1)
  }

  /**
   * `Task.find({ organizationId })`: the tasks of one organization, each as often as it is
   * stored and in stored order (the order is stated by TasksOfSingle and TasksOfAppend).
   */
  function TasksOf(tasks: seq<Task>, org: string): (r: seq<Task>)
    ensures forall t :: t in r <==> t in tasks && t.organizationId == org
    ensures |r| <= |tasks|
    decreases |tasks|
  {
    if tasks == [] then []
    else (if tasks[0].organizationId == org then [tasks[0]] else []) + TasksOf(tasks[1..], org)
  }

  /** Each task of the organization is kept as often as it is stored; every other task is dropped. */
  lemma {:induction false} TasksOfCount(tasks: seq<Task>, org: string, t: Task)
    ensures multiset(TasksOf(tasks, org))[t] == if t.organizationId == org then multiset(tasks)[t] else 0
    decreases |tasks|
  {
    if tasks != [] {
      assert tasks == [tasks[0]] + tasks[1..];
      TasksOfCount(tasks[1..], org, t);
    }
  }

  /** One task is kept exactly when it belongs to the organization. */
  lemma TasksOfSingle(t: Task, org: string)
    ensures TasksOf([t], org) == if t.organizationId == org then [t] else []
  {
    assert [t][1..] == [];
  }

  /** The filter distributes over concatenation: together with TasksOfSingle, the stored order is kept. */
  lemma {:induction false} TasksOfAppend(a: seq<Task>, b: seq<Task>, org: string)
    ensures TasksOf(a + b, org) == TasksOf(a, org) + TasksOf(b, org)
    decreases |a|
  {
    if a != [] {
      assert (a + b)[1..] == a[1..] + b;
      TasksOfAppend(a[1..], b, org);
    } else {
      assert a + b == b;
    }
  }

  predicate NewestFirst(s: seq<Task>) {
    forall i, j :: 0 <= i < j < |s| ==> s[i].createdAt >= s[j].createdAt
  }

  /** A task no older than the head of a newest-first list may go in front of it. */
  lemma PrependNewestFirst(x: Task, s: seq<Task>)
    requires NewestFirst(s)
    requires s != [] ==> s[0].createdAt <= x.createdAt
    ensures NewestFirst([x] + s)
  {
    var r := [x] + s;
    forall i, j | 0 <= i < j < |r|
      ensures r[i].createdAt >= r[j].createdAt
    {
      assert r[j] == s[j - 1];
      if i > 0 {
        assert r[i] == s[i - 1];
      } else {
        assert s[0].createdAt >= s[j - 1].createdAt;
      }
    }
  }

  /** Inserting a task by creation time into a newest-first list. */
  function InsertNewestFirst(t: Task, s: seq<Task>): (r: seq<Task>)
    requires NewestFirst(s)
    ensures NewestFirst(r)
    ensures multiset(r) == multiset(s) + multiset{t}
    ensures |r| == |s| + 1
    ensures r[0] == t || (s != [] && r[0] == s[0])
    decreases |s|
  {
    if s == [] then [t]
    else if t.createdAt >= s[0].createdAt then
      PrependNewestFirst(t, s);
      [t] + s
    else
      var rest := InsertNewestFirst(t, s[1..]);
      InsertBehindHead(t, s, rest);
      [s[0]] + rest
  }

  /** The recursive step of the insertion: the head stays in front of the insertion into the tail. */
  lemma InsertBehindHead(t: Task, s: seq<Task>, rest: seq<Task>)
    requires s != [] && NewestFirst(s) && NewestFirst(rest) && t.createdAt < s[0].createdAt
    requires multiset(rest) == multiset(s[1..]) + multiset{t}
    requires rest != [] && (rest[0] == t || (s[1..] != [] && rest[0] == s[1..][0]))
    ensures NewestFirst([s[0]] + rest) && multiset([s[0]] + rest) == multiset(s) + multiset{t}
  {
    assert s == [s[0]] + s[1..];
    assert multiset(s) == multiset{s[0]} + multiset(s[1..]);
    PrependNewestFirst(s[0], rest);
    assert multiset([s[0]] + rest) == multiset{s[0]} + multiset(rest);
  }

  /** `.sort({ createdAt: -1 })`: the same tasks, newest first. */
  function SortNewestFirst(s: seq<Task>): (r: seq<Task>)
    ensures NewestFirst(r) && multiset(r) == multiset(s)
    decreases |s|
  {
    if s == [] then []
    else
      assert s == [s[0]] + s[1..];
      InsertNewestFirst(s[0], SortNewestFirst(s[1..]))
  }

  /** What `GET /` lists for an organization: exactly its tasks, each as often as stored, newest first. */
  function ListedTasks(tasks: seq<Task>, org: string): (r: seq<Task>)
    ensures NewestFirst(r)
    ensures multiset(r) == multiset(TasksOf(tasks, org))
    ensures forall t :: multiset(r)[t] == if t.organizationId == org then multiset(tasks)[t] else 0
    ensures forall t :: t in r <==> t in tasks && t.organizationId == org
  {
    var r := SortNewestFirst(TasksOf(tasks, org));
    assert forall t :: t in r <==> t in multiset(r);
    assert forall t :: multiset(r)[t] == if t.organizationId == org then multiset(tasks)[t] else 0 by {
      forall t
        ensures multiset(r)[t] == if t.organizationId == org then multiset(tasks)[t] else 0
      {
        TasksOfCount(tasks, org, t);
      }
    }
    r
  }

  // ----- the handlers' decisions -----

  /** Which program a body refers to. */
  datatype ProgramRef = NoProgram | Linked(id: string, name: Option<string>) | NotInOrganization

  /** `if (programId) { Program.findOne({ _id: programId, organizationId }) ... }`. */
  function ResolveProgram(programs: seq<Program>, programId: Option<string>, org: string): (ref: ProgramRef)
    ensures ref.NoProgram? <==> !Truthy(programId)
    ensures ref.NotInOrganization? <==> Truthy(programId) && FindProgram(programs, programId.value, org).None?
    ensures ref.Linked? ==> ref.id == programId.value
                            && exists p :: p in programs && p.id == ref.id && p.organizationId == Some(org) && p.name == ref.name
  {
    if !Truthy(programId) then NoProgram
    else match FindProgram(programs, programId.value, org)
      case None => NotInOrganization
      case Some(p) => Linked(programId.value, p.name)
  }

  /** `programId: programId || null`. */
  function ProgramIdOf(ref: ProgramRef): (id: Option<string>)
    ensures id.Some? <==> ref.Linked?
    ensures id.Some? ==> id.value == ref.id
  {
    if ref.Linked? then Some(ref.id) else None
  }

  /** `programName: programName || null`, where `programName` is the program's name. */
  function ProgramNameOf(ref: ProgramRef): (name: Option<string>)
    ensures name.Some? <==> ref.Linked? && Truthy(ref.name)
    ensures name.Some? ==> name == ref.name && name.value != ""
  {
    if ref.Linked? && Truthy(ref.name) then ref.name else None
  }

  datatype Created = Created(response: Response, saved: Option<Task>)

  /**
   * `POST /` once the middleware let the caller through: 403 without an organization, 400
   * for a missing title, description or requiredSkills or a program outside the
   * organization, 500 when validation refuses the trimmed fields, and otherwise 201 with the
   * saved task, stamped with the caller's organization.
   */
  function CreateOutcome(programs: seq<Program>, user: Claims, body: TaskBody, newId: string, now: int): (c: Created)
    ensures c.saved.Some? <==> c.response.status == 201
    ensures c.response.status in {201, 400, 403, 500}
    ensures c.response.status == 403 <==> !Truthy(user.organizationId)
    ensures c.response.status == 400 <==>
              Truthy(user.organizationId)
              && (!Truthy(body.title) || !Truthy(body.description) || !Truthy(body.requiredSkills)
                  || (Truthy(body.programId) && FindProgram(programs, body.programId.value, user.organizationId.value).None?))
    ensures c.response.status == 500 <==>
              Truthy(user.organizationId) && Truthy(body.title) && Truthy(body.description) && Truthy(body.requiredSkills)
              && !(Truthy(body.programId) && FindProgram(programs, body.programId.value, user.organizationId.value).None?)
              && (Trim(body.title.value) == "" || Trim(body.description.value) == "" || Trim(body.requiredSkills.value) == "")
    ensures c.response.status == 403 ==> c.response == Refusal(403, OrgMissingForAdmin)
    ensures c.response.status == 400 && !(Truthy(body.title) && Truthy(body.description) && Truthy(body.requiredSkills)) ==>
              c.response == Refusal(400, FieldsRequired)
    ensures c.response.status == 400 && Truthy(body.title) && Truthy(body.description) && Truthy(body.requiredSkills) ==>
              c.response == Refusal(400, ProgramNotFound)
    ensures c.response.status == 500 ==> exists paths :: c.response == ServerError(CreateFailed, paths)
    ensures c.saved.Some? ==> var t := c.saved.value;
              && t.organizationId == user.organizationId.value && t.id == newId && t.createdAt == now
              && t.title == Trim(body.title.value) && t.description == Trim(body.description.value)
              && t.requiredSkills == Trim(body.requiredSkills.value)
              && WellFormed(t) && t.deadline == body.deadline
              && c.response == Response(201, Json.Obj(PublicView(t)))
    ensures c.saved.Some? && !Truthy(body.programId) ==> c.saved.value.programId.None? && c.saved.value.programName.None?
    ensures c.saved.Some? && Truthy(body.programId) ==>
              && c.saved.value.programId == body.programId
              && exists p :: p in programs && p.id == body.programId.value && p.organizationId == user.organizationId
                             && c.saved.value.programName == TrimmedValue(if Truthy(p.name) then p.name else None)
  {
    if !Truthy(user.organizationId) then Created(Refusal(403, OrgMissingForAdmin), None)
    else if !Truthy(body.title) || !Truthy(body.description) || !Truthy(body.requiredSkills) then
      Created(Refusal(400, FieldsRequired), None)
    else
      var org := user.organizationId.value;
      var ref := ResolveProgram(programs, body.programId, org);
      if ref.NotInOrganization? then Created(Refusal(400, ProgramNotFound), None)
      else
        var fields := TaskFields(body.title, body.description, body.requiredSkills,
                                 ProgramIdOf(ref), ProgramNameOf(ref), body.deadline, user.organizationId);
        match CastTask(newId, fields, now)
        case Failure(paths) => Created(ServerError(CreateFailed, paths), None)
        case Success(t) => Created(Response(201, Json.Obj(PublicView(t))), Some(t))
  }

  /**
   * `GET /`: 403 without an organization, otherwise exactly the organization's tasks,
   * newest first, each without `_id`.
   */
  function ListReply(tasks: seq<Task>, user: Claims): (r: Response)
    ensures r.status == 403 <==> !Truthy(user.organizationId)
    ensures r.status == 403 || r.status == 200
    ensures r.status == 403 ==> r == Refusal(403, OrgMissing)
    ensures r.status == 200 ==> var listed := ListedTasks(tasks, user.organizationId.value);
              && r.body.Arr? && |r.body.items| == |listed|
              && forall i :: 0 <= i < |listed| ==> r.body.items[i] == Json.Obj(PublicView(listed[i]))
  {
    if !Truthy(user.organizationId) then Refusal(403, OrgMissing)
    else
      var listed := ListedTasks(tasks, user.organizationId.value);
      Response(200, Json.Arr(seq(|listed|, i requires 0 <= i < |listed| => Json.Obj(PublicView(listed[i])))))
  }

  /** `GET /:id`: a task is shown only when both its id and its organization match the caller's. */
  function GetReply(tasks: seq<Task>, user: Claims, id: string): (r: Response)
    ensures r.status in {200, 403, 404}
    ensures r.status == 403 <==> !Truthy(user.organizationId)
    ensures r.status == 404 <==>
              Truthy(user.organizationId)
              && forall j :: 0 <= j < |tasks| ==> !(tasks[j].id == id && tasks[j].organizationId == user.organizationId.value)
    ensures r.status == 403 ==> r == Refusal(403, OrgMissing)
    ensures r.status == 404 ==> r == Refusal(404, TaskNotFound)
    ensures r.status == 200 ==>
              exists k :: 0 <= k < |tasks| && tasks[k].id == id && tasks[k].organizationId == user.organizationId.value
                          && r == Response(200, Json.Obj(PublicView(tasks[k])))
  {
    if !Truthy(user.organizationId) then Refusal(403, OrgMissing)
    else match FirstTask(tasks, id, user.organizationId.value)
      case None => Refusal(404, TaskNotFound)
      case Some(k) => Response(200, Json.Obj(PublicView(tasks[k])))
  }

  /**
   * The update document of `findOneAndUpdate`: `undefined` paths are dropped, so `None`
   * leaves a path as it was; programId and programName are always written.
   */
  datatype TaskUpdate = TaskUpdate(
    title: Option<string>,
    description: Option<string>,
    requiredSkills: Option<string>,
    programId: Option<string>,
    programName: Option<string>,
    deadline: Option<int>,
    organizationId: string)

  /** The update validators (`runValidators`): a required path that is written must not be blank once trimmed. */
  function UpdateErrors(u: TaskUpdate): (e: seq<string>)
    ensures e == [] <==> (u.title.None? || Trim(u.title.value) != "")
                         && (u.description.None? || Trim(u.description.value) != "")
                         && (u.requiredSkills.None? || Trim(u.requiredSkills.value) != "")
  {
    (if u.title.Some? && Trim(u.title.value) == "" then ["title"] else [])
    + (if u.description.Some? && Trim(u.description.value) == "" then ["description"] else [])
    + (if u.requiredSkills.Some? && Trim(u.requiredSkills.value) == "" then ["requiredSkills"] else [])
  }

  /** The task after the update: written paths are replaced by their trimmed values, the others kept. */
  function ApplyUpdate(t: Task, u: TaskUpdate): (r: Task)
    ensures r.id == t.id && r.createdAt == t.createdAt && r.organizationId == u.organizationId
    ensures r.title == (if u.title.Some? then Trim(u.title.value) else t.title)
    ensures r.description == (if u.description.Some? then Trim(u.description.value) else t.description)
    ensures r.requiredSkills == (if u.requiredSkills.Some? then Trim(u.requiredSkills.value) else t.requiredSkills)
    ensures r.programId == u.programId && r.programName == TrimmedValue(u.programName)
    ensures r.deadline == (if u.deadline.Some? then u.deadline else t.deadline)
  {
    t.(title := if u.title.Some? then Trim(u.title.value) else t.title,
       description := if u.description.Some? then Trim(u.description.value) else t.description,
       requiredSkills := if u.requiredSkills.Some? then Trim(u.requiredSkills.value) else t.requiredSkills,
       programId := u.programId,
       programName := TrimmedValue(u.programName),
       deadline := if u.deadline.Some? then u.deadline else t.deadline,
       organizationId := u.organizationId)
  }

  /** Sending the same update twice leaves the task as the first one did. */
  lemma UpdateIdempotent(t: Task, u: TaskUpdate)
    ensures ApplyUpdate(ApplyUpdate(t, u), u) == ApplyUpdate(t, u)
  {
    if u.title.Some? { TrimIdempotent(u.title.value); }
    if u.description.Some? { TrimIdempotent(u.description.value); }
    if u.requiredSkills.Some? { TrimIdempotent(u.requiredSkills.value); }
    if u.programName.Some? { TrimIdempotent(u.programName.value); }
  }

  /** An update that passes its validators keeps a stored task well formed. */
  lemma UpdateKeepsWellFormed(t: Task, u: TaskUpdate)
    requires WellFormed(t) && UpdateErrors(u) == [] && u.organizationId != ""
    ensures WellFormed(ApplyUpdate(t, u))
  {
  }

  /** The body writes a title, description or requiredSkills that is blank once trimmed. */
  predicate BlankWritten(body: TaskBody) {
    || (body.title.Some? && Trim(body.title.value) == "")
    || (body.description.Some? && Trim(body.description.value) == "")
    || (body.requiredSkills.Some? && Trim(body.requiredSkills.value) == "")
  }

  datatype Updated = Updated(response: Response, change: Option<(nat, Task)>)

  /**
   * `PUT /:id` once the middleware let the caller through: 403 without an organization, 400
   * for a program outside the organization, 500 when the update validators refuse, 404 when
   * no task has this id in the caller's organization, and otherwise the first such task,
   * updated, with the organization kept.
   */
  function UpdateOutcome(tasks: seq<Task>, programs: seq<Program>, user: Claims, id: string, body: TaskBody): (c: Updated)
    ensures c.change.Some? <==> c.response.status == 200
    ensures c.response.status in {200, 400, 403, 404, 500}
    ensures c.response.status == 403 <==> !Truthy(user.organizationId)
    ensures c.response.status == 400 <==>
              Truthy(user.organizationId) && Truthy(body.programId)
              && FindProgram(programs, body.programId.value, user.organizationId.value).None?
    ensures c.response.status == 500 <==>
              Truthy(user.organizationId)
              && !(Truthy(body.programId) && FindProgram(programs, body.programId.value, user.organizationId.value).None?)
              && BlankWritten(body)
    ensures c.response.status == 404 <==>
              Truthy(user.organizationId)
              && !(Truthy(body.programId) && FindProgram(programs, body.programId.value, user.organizationId.value).None?)
              && !BlankWritten(body) && FirstTask(tasks, id, user.organizationId.value).None?
    ensures c.response.status == 404 ==>
              forall j :: 0 <= j < |tasks| ==> !(tasks[j].id == id && tasks[j].organizationId == user.organizationId.value)
    ensures c.response.status == 403 ==> c.response == Refusal(403, OrgMissingForAdmin)
    ensures c.response.status == 400 ==> c.response == Refusal(400, ProgramNotFound)
    ensures c.response.status == 404 ==> c.response == Refusal(404, TaskNotUpdated)
    ensures c.response.status == 500 ==> exists paths :: c.response == ServerError(UpdateFailed, paths)
    ensures c.change.Some? ==> var (k, t) := c.change.value;
              var org := user.organizationId.value;
              var ref := ResolveProgram(programs, body.programId, org);
              && FirstTask(tasks, id, org) == Some(k)
              && t == ApplyUpdate(tasks[k], TaskUpdate(body.title, body.description, body.requiredSkills,
                                                       ProgramIdOf(ref), ProgramNameOf(ref), body.deadline, org))
              && t.id == id && t.organizationId == tasks[k].organizationId == org
              && t.createdAt == tasks[k].createdAt
              && c.response == Response(200, Json.Obj(PublicView(t)))
    ensures c.change.Some? && !Truthy(body.programId) ==> c.change.value.1.programId.None? && c.change.value.1.programName.None?
    ensures c.change.Some? && Truthy(body.programId) ==>
              && c.change.value.1.programId == body.programId
              && exists p :: p in programs && p.id == body.programId.value && p.organizationId == user.organizationId
                             && c.change.value.1.programName == TrimmedValue(if Truthy(p.name) then p.name else None)
  {
    if !Truthy(user.organizationId) then Updated(Refusal(403, OrgMissingForAdmin), None)
    else
      var org := user.organizationId.value;
      var ref := ResolveProgram(programs, body.programId, org);
      if ref.NotInOrganization? then Updated(Refusal(400, ProgramNotFound), None)
      else
        var u := TaskUpdate(body.title, body.description, body.requiredSkills,
                            ProgramIdOf(ref), ProgramNameOf(ref), body.deadline, org);
        var errors := UpdateErrors(u);
        assert errors != [] <==> BlankWritten(body);
        if errors != [] then Updated(ServerError(UpdateFailed, errors), None)
        else match FirstTask(tasks, id, org)
          case None => Updated(Refusal(404, TaskNotUpdated), None)
          case Some(k) =>
            var t := ApplyUpdate(tasks[k], u);
            Updated(Response(200, Json.Obj(PublicView(t))), Some((k, t)))
  }

  datatype Deleted = Deleted(response: Response, index: Option<nat>)

  /** `DELETE /:id` once the middleware let the caller through: 403, 404, or the index of the task to delete. */
  function DeleteOutcome(tasks: seq<Task>, user: Claims, id: string): (c: Deleted)
    ensures c.index.Some? <==> c.response.status == 200
    ensures c.response.status in {200, 403, 404}
    ensures c.response.status == 403 <==> !Truthy(user.organizationId)
    ensures c.response.status == 404 <==>
              Truthy(user.organizationId)
              && forall j :: 0 <= j < |tasks| ==> !(tasks[j].id == id && tasks[j].organizationId == user.organizationId.value)
    ensures c.index.Some? ==> c.index == FirstTask(tasks, id, user.organizationId.value)
    ensures c.response.status == 403 ==> c.response == Refusal(403, OrgMissingForAdmin)
    ensures c.response.status == 404 ==> c.response == Refusal(404, TaskNotFound)
    ensures c.index.Some? ==>
              c.response == Response(200, Json.Obj(map["success" := Json.Bool(true), "message" := Json.Str(TaskDeleted)]))
  {
    if !Truthy(user.organizationId) then Deleted(Refusal(403, OrgMissingForAdmin), None)
    else match FirstTask(tasks, id, user.organizationId.value)
      case None => Deleted(Refusal(404, TaskNotFound), None)
      case Some(k) => Deleted(Response(200, Json.Obj(map["success" := Json.Bool(true), "message" := Json.Str(TaskDeleted)])), Some(k))
  }

  // ----- what the writes do to the collections -----

  /** `findOneAndDelete`: the task at `k` is gone and the others keep their order. */
  function RemoveAt(s: seq<Task>, k: nat): (r: seq<Task>)
    requires k < |s|
    ensures |r| == |s| - 1
    ensures multiset(r) + multiset{s[k]} == multiset(s)
    ensures forall j :: 0 <= j < k ==> r[j] == s[j]
    ensures forall j :: k <= j < |r| ==> r[j] == s[j + 1]
    ensures forall t :: t in r ==> t in s
  {
    assert s == s[..k] + [s[k]] + s[k + 1..];
    s[..k] + s[k + 1..]
  }

  /** The filter of `Assignment.deleteMany({ taskId, organizationId })`. */
  predicate OfTask(a: Assignment, taskId: string, org: string) {
    a.taskId == Some(taskId) && a.organizationId == Some(org)
  }

  /**
   * `Assignment.deleteMany({ taskId, organizationId })`: exactly the assignments of that task
   * in that organization go; every other one stays, as often as it was stored and in stored
   * order (the order is stated by WithoutSingle and WithoutAppend).
   */
  function WithoutTaskAssignments(s: seq<Assignment>, taskId: string, org: string): (r: seq<Assignment>)
    ensures forall a :: a in r <==> a in s && !OfTask(a, taskId, org)
    ensures |r| <= |s|
    decreases |s|
  {
    if s == [] then []
    else
      var rest := WithoutTaskAssignments(s[1..], taskId, org);
      if OfTask(s[0], taskId, org) then rest else [s[0]] + rest
  }

  /** Each assignment not of the task stays as often as it is stored; those of the task all go. */
  lemma {:induction false} WithoutCount(s: seq<Assignment>, taskId: string, org: string, a: Assignment)
    ensures multiset(WithoutTaskAssignments(s, taskId, org))[a] == if OfTask(a, taskId, org) then 0 else multiset(s)[a]
    decreases |s|
  {
    if s != [] {
      assert s == [s[0]] + s[1..];
      WithoutCount(s[1..], taskId, org, a);
    }
  }

  /** One assignment stays exactly when it is not one of the task's. */
  lemma WithoutSingle(a: Assignment, taskId: string, org: string)
    ensures WithoutTaskAssignments([a], taskId, org) == if OfTask(a, taskId, org) then [] else [a]
  {
    assert [a][1..] == [];
  }

  /** The delete distributes over concatenation: together with WithoutSingle, the stored order is kept. */
  lemma {:induction false} WithoutAppend(a: seq<Assignment>, b: seq<Assignment>, taskId: string, org: string)
    ensures WithoutTaskAssignments(a + b, taskId, org)
            == WithoutTaskAssignments(a, taskId, org) + WithoutTaskAssignments(b, taskId, org)
    decreases |a|
  {
    if a != [] {
      assert (a + b)[1..] == a[1..] + b;
      WithoutAppend(a[1..], b, taskId, org);
    } else {
      assert a + b == b;
    }
  }

  /** Deleting one organization's task leaves every other organization's task list as it was. */
  lemma {:induction false} DeleteIsolation(tasks: seq<Task>, k: nat, other: string)
    requires k < |tasks| && tasks[k].organizationId != other
    ensures TasksOf(RemoveAt(tasks, k), other) == TasksOf(tasks, other)
  {
    var before, x, after := tasks[..k], tasks[k], tasks[k + 1..];
    assert tasks == before + [x] + after;
    assert RemoveAt(tasks, k) == before + after;
    TasksOfAppend(before + [x], after, other);
    TasksOfAppend(before, [x], other);
    TasksOfAppend(before, after, other);
    TasksOfSingle(x, other);
    assert TasksOf(before, other) + [] == TasksOf(before, other);
  }

  /** Updating one organization's task, which keeps its organization, leaves every other organization's list as it was. */
  lemma {:induction false} UpdateIsolation(tasks: seq<Task>, k: nat, t: Task, other: string)
    requires k < |tasks| && tasks[k].organizationId != other && t.organizationId == tasks[k].organizationId
    ensures TasksOf(tasks[k := t], other) == TasksOf(tasks, other)
  {
    var before, x, after := tasks[..k], tasks[k], tasks[k + 1..];
    assert tasks == before + [x] + after;
    assert tasks[k := t] == before + [t] + after;
    TasksOfAppend(before + [x], after, other);
    TasksOfAppend(before, [x], other);
    TasksOfAppend(before + [t], after, other);
    TasksOfAppend(before, [t], other);
    TasksOfSingle(x, other);
    TasksOfSingle(t, other);
  }

  /** A task created in one organization does not show in any other organization's list. */
  lemma {:induction false} CreateIsolation(tasks: seq<Task>, t: Task, other: string)
    requires t.organizationId != other
    ensures TasksOf(tasks + [t], other) == TasksOf(tasks, other)
  {
    TasksOfAppend(tasks, [t], other);
    TasksOfSingle(t, other);
    assert TasksOf(tasks, other) + [] == TasksOf(tasks, other);
  }

  // ----- the unique `_id` index of the task collection -----

  /** No two stored tasks share an `_id`. */
  predicate DistinctIds(tasks: seq<Task>) {
    forall i, j :: 0 <= i < j < |tasks| ==> tasks[i].id != tasks[j].id
  }

  /** Appending a task keeps the ids distinct exactly when its id is not stored yet. */
  lemma AppendFreshId(tasks: seq<Task>, t: Task)
    requires DistinctIds(tasks)
    ensures DistinctIds(tasks + [t]) <==> forall u :: u in tasks ==> u.id != t.id
  {
    var next := tasks + [t];
    if forall u :: u in tasks ==> u.id != t.id {
      forall i, j | 0 <= i < j < |next| ensures next[i].id != next[j].id {
        if j == |tasks| {
          assert next[i] in tasks;
        }
      }
    } else {
      var u :| u in tasks && u.id == t.id;
      var i :| 0 <= i < |tasks| && tasks[i] == u;
      assert next[i].id == next[|tasks|].id;
    }
  }

  /** Removing one task keeps the ids distinct. */
  lemma RemoveKeepsDistinct(tasks: seq<Task>, k: nat)
    requires k < |tasks| && DistinctIds(tasks)
    ensures DistinctIds(RemoveAt(tasks, k))
  {
    var r := RemoveAt(tasks, k);
    forall i, j | 0 <= i < j < |r| ensures r[i].id != r[j].id {
      var i' := if i < k then i else i + 1;
      var j' := if j < k then j else j + 1;
      assert r[i] == tasks[i'] && r[j] == tasks[j'];
    }
  }

  /** Replacing a task by one with the same id keeps the ids distinct. */
  lemma ReplaceKeepsDistinct(tasks: seq<Task>, k: nat, t: Task)
    requires k < |tasks| && DistinctIds(tasks) && t.id == tasks[k].id
    ensures DistinctIds(tasks[k := t])
  {
    var r := tasks[k := t];
    forall i, j | 0 <= i < j < |r| ensures r[i].id != r[j].id {
      assert r[i].id == tasks[i].id && r[j].id == tasks[j].id;
    }
  }

  /** The task a successful update stores is well formed whenever the task it replaces was. */
  lemma UpdateOutcomeWellFormed(tasks: seq<Task>, programs: seq<Program>, user: Claims, id: string, body: TaskBody)
    requires UpdateOutcome(tasks, programs, user, id, body).change.Some?
    requires WellFormed(tasks[UpdateOutcome(tasks, programs, user, id, body).change.value.0])
    ensures WellFormed(UpdateOutcome(tasks, programs, user, id, body).change.value.1)
  {
    var org := user.organizationId.value;
    var ref := ResolveProgram(programs, body.programId, org);
    var u := TaskUpdate(body.title, body.description, body.requiredSkills,
                        ProgramIdOf(ref), ProgramNameOf(ref), body.deadline, org);
    var k := UpdateOutcome(tasks, programs, user, id, body).change.value.0;
    assert UpdateErrors(u) == [];
    UpdateKeepsWellFormed(tasks[k], u);
  }

  /** The three collections the routes touch. */
  class TaskStore {
    var tasks: seq<Task>
    var programs: seq<Program>
    var assignments: seq<Assignment>

    /** The task collection keeps its unique `_id` index, and every stored task passes the schema. */
    ghost predicate Valid()
      reads this
    {
      DistinctIds(tasks) && forall t :: t in tasks ==> WellFormed(t)
    }

    constructor (programs: seq<Program>)
      ensures Valid()
      ensures tasks == [] && this.programs == programs && assignments == []
    {
      tasks := [];
      this.programs := programs;
      assignments := [];
    }

    /** `POST /` behind `verifyToken` and `isAdmin`: at most one task is appended; programs and assignments stay. */
    method Create(req: Request, verify: Verifier, body: TaskBody, newId: string, now: int) returns (r: Response)
      modifies this, req
      ensures programs == old(programs) && assignments == old(assignments)
      ensures GateOutcome(req.authorization, verify, true).Halt? ==>
                r == GateOutcome(req.authorization, verify, true).response && tasks == old(tasks)
      ensures GateOutcome(req.authorization, verify, true).Next? ==>
                var c := CreateOutcome(programs, GateOutcome(req.authorization, verify, true).user, body, newId, now);
                && r == c.response
                && tasks == old(tasks) + (if c.saved.Some? then [c.saved.value] else [])
      ensures old(Valid()) && (forall t :: t in old(tasks) ==> t.id != newId) ==> Valid()
    {
      var gate := Authorize(req, verify, true);
      if gate.Halt? {
        return gate.response;
      }
      r := CreateAs(gate.user, body, newId, now);
    }

    /** The body of `POST /` once the caller is known: the saved task, if any, is appended. */
    method CreateAs(user: Claims, body: TaskBody, newId: string, now: int) returns (r: Response)
      modifies this
      ensures programs == old(programs) && assignments == old(assignments)
      ensures var c := CreateOutcome(old(programs), user, body, newId, now);
              && r == c.response
              && tasks == old(tasks) + (if c.saved.Some? then [c.saved.value] else [])
      ensures old(Valid()) && (forall t :: t in old(tasks) ==> t.id != newId) ==> Valid()
    {
      r := Commit(CreateOutcome(programs, user, body, newId, now));
    }

    /** `newTask.save()` once the decision is made: the saved task, if any, goes at the end. */
    method Commit(c: Created) returns (r: Response)
      modifies this
      ensures programs == old(programs) && assignments == old(assignments)
      ensures r == c.response && tasks == old(tasks) + (if c.saved.Some? then [c.saved.value] else [])
      ensures old(Valid()) && (c.saved.Some? ==> WellFormed(c.saved.value) && forall t :: t in old(tasks) ==> t.id != c.saved.value.id)
              ==> Valid()
    {
      if c.saved.Some? {
        if Valid() && WellFormed(c.saved.value) && forall t :: t in tasks ==> t.id != c.saved.value.id {
          AppendFreshId(tasks, c.saved.value);
        }
        tasks := tasks + [c.saved.value];
      }
      r := c.response;
    }

    /** `GET /` behind `verifyToken`; it changes no collection. */
    method List(req: Request, verify: Verifier) returns (r: Response)
      modifies req
      ensures GateOutcome(req.authorization, verify, false).Halt? ==>
                r == GateOutcome(req.authorization, verify, false).response
      ensures GateOutcome(req.authorization, verify, false).Next? ==>
                r == ListReply(tasks, GateOutcome(req.authorization, verify, false).user)
    {
      var gate := Authorize(req, verify, false);
      if gate.Halt? {
        return gate.response;
      }
      r := ListReply(tasks, gate.user);
    }

    /** `GET /:id` behind `verifyToken`; it changes no collection. */
    method Get(req: Request, verify: Verifier, id: string) returns (r: Response)
      modifies req
      ensures GateOutcome(req.authorization, verify, false).Halt? ==>
                r == GateOutcome(req.authorization, verify, false).response
      ensures GateOutcome(req.authorization, verify, false).Next? ==>
                r == GetReply(tasks, GateOutcome(req.authorization, verify, false).user, id)
    {
      var gate := Authorize(req, verify, false);
      if gate.Halt? {
        return gate.response;
      }
      r := GetReply(tasks, gate.user, id);
    }

    /** `PUT /:id` behind `verifyToken` and `isAdmin`: at most the one matched task changes, in place. */
    method Update(req: Request, verify: Verifier, id: string, body: TaskBody) returns (r: Response)
      modifies this, req
      ensures programs == old(programs) && assignments == old(assignments)
      ensures GateOutcome(req.authorization, verify, true).Halt? ==>
                r == GateOutcome(req.authorization, verify, true).response && tasks == old(tasks)
      ensures GateOutcome(req.authorization, verify, true).Next? ==>
                var c := UpdateOutcome(old(tasks), programs, GateOutcome(req.authorization, verify, true).user, id, body);
                && r == c.response
                && tasks == (if c.change.Some? then old(tasks)[c.change.value.0 := c.change.value.1] else old(tasks))
      ensures old(Valid()) ==> Valid()
    {
      var gate := Authorize(req, verify, true);
      if gate.Halt? {
        return gate.response;
      }
      var c := UpdateOutcome(tasks, programs, gate.user, id, body);
      if c.change.Some? {
        if Valid() {
          var (k, t) := c.change.value;
          assert tasks[k] in tasks;
          UpdateOutcomeWellFormed(tasks, programs, gate.user, id, body);
          ReplaceKeepsDistinct(tasks, k, t);
          assert forall u :: u in tasks[k := t] ==> u == t || u in tasks;
        }
        tasks := tasks[c.change.value.0 := c.change.value.1];
      }
      r := c.response;
    }

    /**
     * `DELETE /:id` behind `verifyToken` and `isAdmin`: the matched task goes, and with it the
     * assignments of that task id in the caller's organization; nothing else changes.
     */
    method Delete(req: Request, verify: Verifier, id: string) returns (r: Response)
      modifies this, req
      ensures programs == old(programs)
      ensures GateOutcome(req.authorization, verify, true).Halt? ==>
                r == GateOutcome(req.authorization, verify, true).response
                && tasks == old(tasks) && assignments == old(assignments)
      ensures GateOutcome(req.authorization, verify, true).Next? ==>
                var user := GateOutcome(req.authorization, verify, true).user;
                var c := DeleteOutcome(old(tasks), user, id);
                && r == c.response
                && (c.index.None? ==> tasks == old(tasks) && assignments == old(assignments))
                && (c.index.Some? ==>
                      && tasks == RemoveAt(old(tasks), c.index.value)
                      && assignments == WithoutTaskAssignments(old(assignments), id, user.organizationId.value))
      ensures old(Valid()) ==> Valid()
    {
      var gate := Authorize(req, verify, true);
      if gate.Halt? {
        return gate.response;
      }
      var c := DeleteOutcome(tasks, gate.user, id);
      if c.index.Some? {
        if Valid() {
          RemoveKeepsDistinct(tasks, c.index.value);
        }
        tasks := RemoveAt(tasks, c.index.value);
        assignments := WithoutTaskAssignments(assignments, id, gate.user.organizationId.value);
      }
      r := c.response;
    }
  }
}
