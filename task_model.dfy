/**
 * The Task schema of models/Task.js: title, description and requiredSkills are required and
 * trimmed, programId defaults to null, programName is trimmed, deadline is optional,
 * organizationId is required, and the `toJSON` transform hides only `_id`.
 */
module TaskModel {
  import opened Wrappers
  import opened JsString
  import Json

  /** A stored task. `deadline` and `createdAt` are time stamps. */
  datatype Task = Task(
    id: string,
    title: string,
    description: string,
    requiredSkills: string,
    programId: Option<string>,
    programName: Option<string>,
    deadline: Option<int>,
    organizationId: string,
    createdAt: int)

  /** The paths given to `new Task({...})`; `None` where a path is `undefined` or `null`. */
  datatype TaskFields = TaskFields(
    title: Option<string>,
    description: Option<string>,
    requiredSkills: Option<string>,
    programId: Option<string>,
    programName: Option<string>,
    deadline: Option<int>,
    organizationId: Option<string>)

  /** The `required` validator after the `trim` setter. */
  predicate PresentTrimmed(v: Option<string>) {
    v.Some? && Trim(v.value) != ""
  }

  /** The paths whose validation fails, in schema order. */
  function Errors(f: TaskFields): (e: seq<string>)
    ensures e == [] <==> PresentTrimmed(f.title) && PresentTrimmed(f.description)
                         && PresentTrimmed(f.requiredSkills) && Truthy(f.organizationId)
  {
    (if PresentTrimmed(f.title) then [] else ["title"])
    + (if PresentTrimmed(f.description) then [] else ["description"])
    + (if PresentTrimmed(f.requiredSkills) then [] else ["requiredSkills"])
    + (if Truthy(f.organizationId) then [] else ["organizationId"])
  }

  /** A stored task keeps the schema's rules: required paths non-empty and trimmed, optional names trimmed. */
  predicate WellFormed(t: Task) {
    && t.title != "" && Trimmed(t.title)
    && t.description != "" && Trimmed(t.description)
    && t.requiredSkills != "" && Trimmed(t.requiredSkills)
    && (t.programName.Some? ==> Trimmed(t.programName.value))
    && t.organizationId != ""
  }

  /**
   * `new Task(fields)` followed by validation on `save()`: refused exactly when a required
   * path is missing or blank; otherwise every string is trimmed, absent optional paths stay
   * absent, and `createdAt` defaults to the current time.
   */
  function CastTask(id: string, f: TaskFields, now: int): (r: Result<Task, seq<string>>)
    ensures r.Failure? <==> !(PresentTrimmed(f.title) && PresentTrimmed(f.description)
                              && PresentTrimmed(f.requiredSkills) && Truthy(f.organizationId))
    ensures r.Failure? ==> |r.error| > 0
    ensures r.Success? ==> WellFormed(r.value)
    ensures r.Success? ==> && r.value.id == id && r.value.createdAt == now
                           && r.value.title == Trim(f.title.value)
                           && r.value.description == Trim(f.description.value)
                           && r.value.requiredSkills == Trim(f.requiredSkills.value)
                           && r.value.programId == f.programId
                           && r.value.programName == TrimmedValue(f.programName)
                           && r.value.deadline == f.deadline
                           && r.value.organizationId == f.organizationId.value
  {
    var errors := Errors(f);
    if errors != [] then Failure(errors)
    else Success(Task(
      id, Trim(f.title.value), Trim(f.description.value), Trim(f.requiredSkills.value),
      f.programId, TrimmedValue(f.programName), f.deadline, f.organizationId.value, now))
  }

  /** The document Mongoose serialises; an absent deadline is an absent key. */
  function Serialised(t: Task): (r: Json.Object)
    ensures "_id" in r && r["_id"] == Json.Str(t.id)
    ensures "title" in r && r["title"] == Json.Str(t.title)
    ensures "organizationId" in r && r["organizationId"] == Json.Str(t.organizationId)
    ensures "deadline" in r <==> t.deadline.Some?
    ensures t.deadline.Some? ==> r["deadline"] == Json.Num(t.deadline.value)
  {
    var doc := map[
      "_id" := Json.Str(t.id),
      "title" := Json.Str(t.title),
      "description" := Json.Str(t.description),
      "requiredSkills" := Json.Str(t.requiredSkills),
      "programId" := Json.StrOrNull(t.programId),
      "programName" := Json.StrOrNull(t.programName),
      "organizationId" := Json.Str(t.organizationId),
      "createdAt" := Json.Num(t.createdAt)];
    match t.deadline
    case Some(d) => doc["deadline" := Json.Num(d)]
    case None => doc
  }

  /** The effect of the transform: only `_id` is removed. */
  function JsonView(ret: Json.Object): (r: Json.Object)
    ensures r.Keys == ret.Keys - {"_id"}
    ensures forall k :: k in r ==> r[k] == ret[k]
  {
    ret - {"_id"}
  }

  /** The transform, deleting `_id` from `ret` in place. */
  method ToJsonTransform(ret: Json.Document)
    modifies ret
    ensures ret.fields == JsonView(old(ret.fields))
  {
    ret.Delete("_id");
  }

  /** `task.toJSON()`: every field but `_id`, the organization included. */
  function PublicView(t: Task): (v: Json.Object)
    ensures "_id" !in v
    ensures v.Keys == Serialised(t).Keys - {"_id"}
    ensures v["title"] == Json.Str(t.title) && v["organizationId"] == Json.Str(t.organizationId)
    ensures "deadline" in v <==> t.deadline.Some?
  {
    JsonView(Serialised(t))
  }
}
