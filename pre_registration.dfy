/**
 * The `POST /pending-users` handler of index.js, over the two in-memory arrays `users` and
 * `pendingUsers`: five fields must be present, the e-mail and the unique id must not occur in
 * either array (exact, case-sensitive comparison), and then one record, with the password
 * hashed, is appended to `pendingUsers`.
 */
module PreRegistration {
  import opened Wrappers
  import opened JsString
  import Json
  import opened Http

  /** A record of either array. `submissionDate` is the ISO text of the submission time. */
  datatype Record = Record(
    id: string,
    displayName: string,
    email: string,
    password: string,
    role: string,
    uniqueId: string,
    submissionDate: string)

  /** The fields destructured from `req.body`; `None` where a field is absent. */
  datatype Body = Body(
    displayName: Option<string>,
    email: Option<string>,
    password: Option<string>,
    role: Option<string>,
    uniqueId: Option<string>)

  /** `bcrypt.hash(password, 10)`, with the generated salt folded into the function. */
  type Hasher = string -> string

  const MissingFields := "Missing required fields"
  const AlreadyExists := "Email or Unique ID already exists"

  /** Every one of the five fields is truthy: present and not the empty string. */
  predicate Complete(b: Body)
    ensures Complete(b) <==> && b.displayName.Some? && b.displayName.value != ""
                             && b.email.Some? && b.email.value != ""
                             && b.password.Some? && b.password.value != ""
                             && b.role.Some? && b.role.value != ""
                             && b.uniqueId.Some? && b.uniqueId.value != ""
  {
    Truthy(b.displayName) && Truthy(b.email) && Truthy(b.password) && Truthy(b.role) && Truthy(b.uniqueId)
  }

  /** The two fields the duplicate check compares. */
  datatype Key = EmailKey | UniqueIdKey

  function KeyOf(r: Record, k: Key): string {
    match k
    case EmailKey => r.email
    case UniqueIdKey => r.uniqueId
  }

  /** `records.some(r => r.email === email)`, and the same test on `uniqueId`. */
  predicate Taken(records: seq<Record>, k: Key, value: string)
    ensures Taken(records, k, value) <==> exists r :: r in records && KeyOf(r, k) == value
  {
    exists i :: 0 <= i < |records| && KeyOf(records[i], k) == value
  }

  /** Testing the two arrays one after the other is testing them together. */
  lemma TakenAppend(a: seq<Record>, b: seq<Record>, k: Key, value: string)
    ensures Taken(a + b, k, value) <==> Taken(a, k, value) || Taken(b, k, value)
  {
    if Taken(a, k, value) || Taken(b, k, value) {
      var r :| (r in a || r in b) && KeyOf(r, k) == value;
      assert r in a + b;
    }
  }

  /** No two records, across both arrays, share an e-mail or a unique id. */
  predicate Distinct(records: seq<Record>) {
    forall i, j :: 0 <= i < j < |records| ==>
      records[i].email != records[j].email && records[i].uniqueId != records[j].uniqueId
  }

  datatype Admission = Rejected(response: Response) | Admitted(record: Record)

  /**
   * The handler's decision: 400 unless all five fields are present, 409 when some record of
   * either array has the e-mail or the unique id, and otherwise the new record, stored with
   * the hashed password and every other field as supplied.
   */
  function Admit(users: seq<Record>, pending: seq<Record>, b: Body, hash: Hasher, newId: string, now: string): (a: Admission)
    ensures a.Rejected? ==> a.response.status == 400 || a.response.status == 409
    ensures (a.Rejected? && a.response.status == 400) <==> !Complete(b)
    ensures (a.Rejected? && a.response.status == 400) ==> a.response == ErrorReply(400, MissingFields)
    ensures (a.Rejected? && a.response.status == 409) <==>
              Complete(b) && exists r :: r in users + pending && (r.email == b.email.value || r.uniqueId == b.uniqueId.value)
    ensures (a.Rejected? && a.response.status == 409) ==> a.response == ErrorReply(409, AlreadyExists)
    ensures a.Admitted? ==>
              a.record == Record(newId, b.displayName.value, b.email.value, hash(b.password.value),
                                 b.role.value, b.uniqueId.value, now)
  {
    if !Complete(b) then Rejected(ErrorReply(400, MissingFields))
    else if Taken(users, EmailKey, b.email.value) || Taken(pending, EmailKey, b.email.value)
            || Taken(users, UniqueIdKey, b.uniqueId.value) || Taken(pending, UniqueIdKey, b.uniqueId.value) then
      assert forall i :: 0 <= i < |users| ==> users[i] in users + pending;
      assert forall i :: 0 <= i < |pending| ==> pending[i] in users + pending;
      Rejected(ErrorReply(409, AlreadyExists))
    else
      assert forall r :: r in users + pending ==> r in users || r in pending;
      Admitted(Record(newId, b.displayName.value, b.email.value, hash(b.password.value),
                      b.role.value, b.uniqueId.value, now))
  }

  /** `res.status(201).json(newPendingUser)`: the record as stored, the hashed password included. */
  function RecordJson(r: Record): (v: Json.Value)
    ensures v.Obj?
    ensures v.fields.Keys == {"id", "displayName", "email", "password", "role", "uniqueId", "submissionDate"}
    ensures v.fields["id"] == Json.Str(r.id) && v.fields["displayName"] == Json.Str(r.displayName)
    ensures v.fields["email"] == Json.Str(r.email) && v.fields["password"] == Json.Str(r.password)
    ensures v.fields["role"] == Json.Str(r.role) && v.fields["uniqueId"] == Json.Str(r.uniqueId)
    ensures v.fields["submissionDate"] == Json.Str(r.submissionDate)
  {
    Json.Obj(map[
      "id" := Json.Str(r.id),
      "displayName" := Json.Str(r.displayName),
      "email" := Json.Str(r.email),
      "password" := Json.Str(r.password),
      "role" := Json.Str(r.role),
      "uniqueId" := Json.Str(r.uniqueId),
      "submissionDate" := Json.Str(r.submissionDate)])
  }

  /** An admitted record keeps the two arrays free of shared e-mails and unique ids. */
  lemma {:induction false} AdmitKeepsDistinct(users: seq<Record>, pending: seq<Record>, b: Body, hash: Hasher, newId: string, now: string)
    requires Distinct(users + pending)
    requires Admit(users, pending, b, hash, newId, now).Admitted?
    ensures Distinct(users + pending + [Admit(users, pending, b, hash, newId, now).record])
  {
    var all := users + pending;
    var rec := Admit(users, pending, b, hash, newId, now).record;
    var next := all + [rec];
    forall i, j | 0 <= i < j < |next|
      ensures next[i].email != next[j].email && next[i].uniqueId != next[j].uniqueId
    {
      if j < |all| {
        assert next[i] == all[i] && next[j] == all[j];
      } else {
        assert next[j] == rec && next[i] == all[i];
        assert all[i] in users + pending;
      }
    }
  }

  /**
   * The duplicate check is case-sensitive: a body whose e-mail equals a stored one only up to
   * letter case, and whose e-mail and unique id match no record exactly, is admitted.
   */
  lemma EmailCaseMatters(users: seq<Record>, pending: seq<Record>, b: Body, hash: Hasher, newId: string, now: string, r: Record)
    requires Complete(b)
    requires r in users + pending && r.email != b.email.value && ToLowerCase(r.email) == ToLowerCase(b.email.value)
    requires forall q :: q in users + pending ==> q.email != b.email.value && q.uniqueId != b.uniqueId.value
    ensures Admit(users, pending, b, hash, newId, now).Admitted?
  {
  }

  /** The `some` scan: it stops at the first record whose field holds the value. */
  method AnyHas(records: seq<Record>, k: Key, value: string) returns (found: bool)
    ensures found <==> Taken(records, k, value)
  {
    found := false;
    var i := 0;
    while i < |records| && !found
      invariant 0 <= i <= |records|
      invariant found <==> exists j :: 0 <= j < i && KeyOf(records[j], k) == value
    {
      found := KeyOf(records[i], k) == value;
      i := i + 1;
    }
  }

  /** The module-level arrays `users` and `pendingUsers`. */
  class Registry {
    var users: seq<Record>
    var pendingUsers: seq<Record>

    /** No e-mail and no unique id occurs twice across the two arrays. */
    ghost predicate Valid()
      reads this
    {
      Distinct(users + pendingUsers)
    }

    /** Both arrays start empty. */
    constructor ()
      ensures Valid() && users == [] && pendingUsers == []
    {
      users := [];
      pendingUsers := [];
    }

    /**
     * `POST /pending-users`: `users` never changes; `pendingUsers` grows by exactly the
     * admitted record, at the end, or stays as it was.
     */
    method PostPendingUser(b: Body, hash: Hasher, newId: string, now: string) returns (r: Response)
      modifies this
      ensures users == old(users)
      ensures old(Valid()) ==> Valid()
      ensures match Admit(old(users), old(pendingUsers), b, hash, newId, now)
              case Rejected(response) => r == response && pendingUsers == old(pendingUsers)
              case Admitted(record) => r == Response(201, RecordJson(record)) && pendingUsers == old(pendingUsers) + [record]
    {
      if !(Truthy(b.displayName) && Truthy(b.email) && Truthy(b.password) && Truthy(b.role) && Truthy(b.uniqueId)) {
        return ErrorReply(400, MissingFields);
      }
      var emailInUsers := AnyHas(users, EmailKey, b.email.value);
      var emailInPending := AnyHas(pendingUsers, EmailKey, b.email.value);
      var idInUsers := AnyHas(users, UniqueIdKey, b.uniqueId.value);
      var idInPending := AnyHas(pendingUsers, UniqueIdKey, b.uniqueId.value);
      if emailInUsers || emailInPending || idInUsers || idInPending {
        return ErrorReply(409, AlreadyExists);
      }
      var record := Record(newId, b.displayName.value, b.email.value, hash(b.password.value),
                           b.role.value, b.uniqueId.value, now);
      if Valid() {
        AdmitKeepsDistinct(users, pendingUsers, b, hash, newId, now);
      }
      assert users + (pendingUsers + [record]) == users + pendingUsers + [record];
      pendingUsers := pendingUsers + [record];
      r := Response(201, RecordJson(record));
    }
  }
}
