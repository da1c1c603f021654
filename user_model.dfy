/**
 * The User schema of models/User.js: how Mongoose casts and validates a user document
 * (trimming, lower-casing, enums, defaults, required paths), the two compound unique
 * indexes, the pre-save hook that hashes a password at most once, `comparePassword`
 * and the `toJSON` transform that hides `_id` and the password.
 */
module UserModel {
  import opened Wrappers
  import opened JsString
  import Json

  /** The two values of the `role` enum: `Admin` is `admin`, and `Member` is the value `user`. */
  datatype Role = Admin | Member

  /** The enum values of the `role` path. */
  function RoleName(r: Role): string {
    match r
    case Admin => "admin"
    case Member => "user"
  }

  function ParseRole(s: string): (r: Option<Role>)
    ensures r.Some? <==> s == "admin" || s == "user"
    ensures r.Some? ==> RoleName(r.value) == s
  {
    if s == "admin" then Some(Admin) else if s == "user" then Some(Member) else None
  }

  datatype NotificationPreference = ByEmail | ByPhone | NoNotification

  /** The enum values of the `notificationPreference` path. */
  function PreferenceName(p: NotificationPreference): string {
    match p
    case ByEmail => "email"
    case ByPhone => "phone"
    case NoNotification => "none"
  }

  function ParsePreference(s: string): (p: Option<NotificationPreference>)
    ensures p.Some? <==> s == "email" || s == "phone" || s == "none"
    ensures p.Some? ==> PreferenceName(p.value) == s
  {
    if s == "email" then Some(ByEmail)
    else if s == "phone" then Some(ByPhone)
    else if s == "none" then Some(NoNotification)
    else None
  }

  /** A stored user document. `createdAt` is a time stamp, `referringAdminId` an optional user id. */
  datatype User = User(
    id: string,
    email: string,
    uniqueId: string,
    password: string,
    role: Role,
    displayName: string,
    position: string,
    userInterests: string,
    phone: string,
    notificationPreference: NotificationPreference,
    referringAdminId: Option<string>,
    organizationId: string,
    createdAt: int)

  /** The paths of a document before casting; `None` where the path is `undefined`. */
  datatype UserFields = UserFields(
    email: Option<string>,
    uniqueId: Option<string>,
    password: Option<string>,
    role: Option<string>,
    displayName: Option<string>,
    position: Option<string>,
    userInterests: Option<string>,
    phone: Option<string>,
    notificationPreference: Option<string>,
    referringAdminId: Option<string>,
    organizationId: Option<string>,
    createdAt: Option<int>)

  datatype FieldError = Required(path: string) | NotInEnum(path: string, value: string)

  /** The value of the `email` path after its `trim` and `lowercase` setters. */
  function EmailValue(v: Option<string>): (r: Option<string>)
    ensures r.Some? <==> v.Some?
    ensures r.Some? ==> |r.value| == |Trim(v.value)| && r.value == ToLowerCase(Trim(v.value))
  {
    match v
    case Some(s) => Some(ToLowerCase(Trim(s)))
    case None => None
  }

  /** The `required` validator of a string path: it fails on an absent or empty value. */
  function RequiredCheck(path: string, v: Option<string>): (e: seq<FieldError>)
    ensures e == [] <==> Truthy(v)
    ensures e != [] ==> e == [Required(path)]
  {
    if Truthy(v) then [] else [Required(path)]
  }

  /** `role`: `undefined` takes the default; the empty string fails `required`; anything else must be in the enum. */
  function RoleCheck(v: Option<string>): (e: seq<FieldError>)
    ensures e == [] <==> v.None? || v.value == "admin" || v.value == "user"
    ensures v == Some("") ==> e == [Required("role")]
    ensures v.Some? && v.value != "" && e != [] ==> e == [NotInEnum("role", v.value)]
  {
    match v
    case None => []
    case Some(s) =>
      if s == "" then [Required("role")]
      else if ParseRole(s).None? then [NotInEnum("role", s)]
      else []
  }

  /** `notificationPreference`: not required, but a given value must be in the enum. */
  function PreferenceCheck(v: Option<string>): (e: seq<FieldError>)
    ensures e == [] <==> v.None? || v.value in {"email", "phone", "none"}
    ensures e != [] ==> e == [NotInEnum("notificationPreference", v.value)]
  {
    match v
    case None => []
    case Some(s) => if ParsePreference(s).None? then [NotInEnum("notificationPreference", s)] else []
  }

  /** The validation errors of a document, in schema order: none exactly when every path is acceptable. */
  function Errors(f: UserFields): (e: seq<FieldError>)
    ensures e == [] <==> Acceptable(f)
  {
    RequiredCheck("email", EmailValue(f.email))
    + RequiredCheck("uniqueId", TrimmedValue(f.uniqueId))
    + RequiredCheck("password", f.password)
    + RoleCheck(f.role)
    + RequiredCheck("displayName", TrimmedValue(f.displayName))
    + PreferenceCheck(f.notificationPreference)
    + RequiredCheck("organizationId", f.organizationId)
  }

  /** What the schema accepts, path by path. */
  predicate Acceptable(f: UserFields) {
    && f.email.Some? && Trim(f.email.value) != ""
    && f.uniqueId.Some? && Trim(f.uniqueId.value) != ""
    && Truthy(f.password)
    && (f.role.None? || f.role.value == "admin" || f.role.value == "user")
    && f.displayName.Some? && Trim(f.displayName.value) != ""
    && (f.notificationPreference.None? || f.notificationPreference.value in {"email", "phone", "none"})
    && Truthy(f.organizationId)
  }

  /** The stored form of a user: trimmed, e-mail lower-cased, every required path non-empty. */
  predicate WellFormed(u: User) {
    && u.email != "" && Trimmed(u.email) && ToLowerCase(u.email) == u.email
    && u.uniqueId != "" && Trimmed(u.uniqueId)
    && u.password != ""
    && u.displayName != "" && Trimmed(u.displayName)
    && Trimmed(u.position) && Trimmed(u.userInterests) && Trimmed(u.phone)
    && u.organizationId != ""
  }

  /**
   * Casting and validating a document as `new User(...)` / `insertMany` do: the errors of
   * every failing path, or the cast user. Its properties are stated by the lemmas below.
   */
  function CastUser(id: string, f: UserFields, now: int): (r: Result<User, seq<FieldError>>)
    ensures r.Failure? ==> |r.error| > 0
    ensures r.Success? ==> r.value.id == id && r.value.createdAt == f.createdAt.GetOr(now)
  {
    var errors := Errors(f);
    if errors != [] then Failure(errors)
    else
      Success(User(
        id, ToLowerCase(Trim(f.email.value)), Trim(f.uniqueId.value), f.password.value,
        if f.role.None? then Member else ParseRole(f.role.value).value,
        Trim(f.displayName.value),
        Trim(f.position.GetOr("")), Trim(f.userInterests.GetOr("")), Trim(f.phone.GetOr("")),
        if f.notificationPreference.None? then NoNotification else ParsePreference(f.notificationPreference.value).value,
        f.referringAdminId, f.organizationId.value, f.createdAt.GetOr(now)))
  }

  /** A document is refused exactly when some path fails its validator. */
  lemma CastAccepts(id: string, f: UserFields, now: int)
    ensures CastUser(id, f, now).Success? <==> Acceptable(f)
  {
    var e := Errors(f);
    assert Truthy(EmailValue(f.email)) <==> f.email.Some? && Trim(f.email.value) != "";
    if e == [] {
      assert RequiredCheck("email", EmailValue(f.email)) == [];
      assert RequiredCheck("uniqueId", TrimmedValue(f.uniqueId)) == [];
      assert RequiredCheck("password", f.password) == [];
      assert RoleCheck(f.role) == [];
      assert RequiredCheck("displayName", TrimmedValue(f.displayName)) == [];
      assert PreferenceCheck(f.notificationPreference) == [];
      assert RequiredCheck("organizationId", f.organizationId) == [];
    }
  }

  /**
   * A cast user is normalised: the e-mail trimmed and lower-cased, uniqueId, displayName,
   * position, userInterests and phone trimmed, and the defaults `user`, `none`, `''`, `null`
   * taken for absent paths; the stored form is well formed.
   */
  lemma CastNormalises(id: string, f: UserFields, now: int)
    requires CastUser(id, f, now).Success?
    ensures var u := CastUser(id, f, now).value;
            && WellFormed(u)
            && u.email == ToLowerCase(Trim(f.email.value))
            && u.uniqueId == Trim(f.uniqueId.value)
            && u.displayName == Trim(f.displayName.value)
            && u.password == f.password.value
            && u.organizationId == f.organizationId.value
            && (f.role.None? ==> u.role == Member)
            && (f.role.Some? ==> RoleName(u.role) == f.role.value)
            && (f.notificationPreference.None? ==> u.notificationPreference == NoNotification)
            && (f.notificationPreference.Some? ==> PreferenceName(u.notificationPreference) == f.notificationPreference.value)
            && u.position == Trim(f.position.GetOr(""))
            && u.userInterests == Trim(f.userInterests.GetOr(""))
            && u.phone == Trim(f.phone.GetOr(""))
            && u.referringAdminId == f.referringAdminId
  {
    CastAccepts(id, f, now);
    LowerTrimCommute(f.email.value);
    LowerIdempotent(Trim(f.email.value));
  }

  /** The paths of a stored user, as a later save would present them again. */
  function FieldsOf(u: User): UserFields {
    UserFields(
      Some(u.email), Some(u.uniqueId), Some(u.password), Some(RoleName(u.role)), Some(u.displayName),
      Some(u.position), Some(u.userInterests), Some(u.phone), Some(PreferenceName(u.notificationPreference)),
      u.referringAdminId, Some(u.organizationId), Some(u.createdAt))
  }

  lemma RoleRoundTrip(r: Role)
    ensures ParseRole(RoleName(r)) == Some(r)
  {
  }

  lemma PreferenceRoundTrip(p: NotificationPreference)
    ensures ParsePreference(PreferenceName(p)) == Some(p)
  {
  }

  /** A stored user passes validation again. */
  lemma RecastAccepted(u: User)
    requires WellFormed(u)
    ensures Acceptable(FieldsOf(u)) && Errors(FieldsOf(u)) == []
  {
    assert Trim(u.email) == u.email && Trim(u.uniqueId) == u.uniqueId && Trim(u.displayName) == u.displayName;
    assert PreferenceName(u.notificationPreference) in {"email", "phone", "none"};
  }

  /** A well-formed user is a fixed point of the normalisation, field by field. */
  lemma NormalisedIsIdentity(u: User, v: User)
    requires WellFormed(u)
    requires v.id == u.id && v.createdAt == u.createdAt && v.password == u.password
    requires v.email == ToLowerCase(Trim(u.email)) && v.uniqueId == Trim(u.uniqueId) && v.displayName == Trim(u.displayName)
    requires v.position == Trim(u.position) && v.userInterests == Trim(u.userInterests) && v.phone == Trim(u.phone)
    requires RoleName(v.role) == RoleName(u.role) && PreferenceName(v.notificationPreference) == PreferenceName(u.notificationPreference)
    requires v.referringAdminId == u.referringAdminId && v.organizationId == u.organizationId
    ensures v == u
  {
    RoleRoundTrip(u.role);
    RoleRoundTrip(v.role);
    PreferenceRoundTrip(u.notificationPreference);
    PreferenceRoundTrip(v.notificationPreference);
  }

  /** Casting a stored user again changes nothing: the normalisation is a fixed point. */
  lemma RecastIsIdentity(u: User, now: int)
    requires WellFormed(u)
    ensures CastUser(u.id, FieldsOf(u), now) == Success(u)
  {
    var f := FieldsOf(u);
    RecastAccepted(u);
    CastAccepts(u.id, f, now);
    CastNormalises(u.id, f, now);
    NormalisedIsIdentity(u, CastUser(u.id, f, now).value);
  }

  /** Two documents with the same `_id`: MongoDB's own unique index, across all organizations. */
  predicate SameDocumentId(a: User, b: User) {
    a.id == b.id
  }

  /** No two users share an e-mail within an organization. */
  predicate SameEmailKey(a: User, b: User) {
    a.email == b.email && a.organizationId == b.organizationId
  }

  /** No two users share a uniqueId within an organization. */
  predicate SameIdKey(a: User, b: User) {
    a.uniqueId == b.uniqueId && a.organizationId == b.organizationId
  }

  /** Two documents that one of the three unique indexes forbids to coexist. */
  predicate Clash(a: User, b: User) {
    SameDocumentId(a, b) || SameEmailKey(a, b) || SameIdKey(a, b)
  }

  /** The `_id` index and the compound unique indexes `{ email, organizationId }` and `{ uniqueId, organizationId }`. */
  predicate UniqueIndexes(users: seq<User>) {
    forall i, j :: 0 <= i < j < |users| ==> !Clash(users[i], users[j])
  }

  /** Inserting `u` would break one of the three indexes. */
  predicate Collides(users: seq<User>, u: User) {
    exists i :: 0 <= i < |users| && Clash(users[i], u)
  }

  /** An insert keeps the indexes exactly when it collides with no stored user. */
  lemma AppendKeepsIndexes(users: seq<User>, u: User)
    ensures UniqueIndexes(users + [u]) <==> UniqueIndexes(users) && !Collides(users, u)
  {
    var s := users + [u];
    if UniqueIndexes(s) {
      assert forall i, j :: 0 <= i < j < |users| ==> users[i] == s[i] && users[j] == s[j];
      forall i | 0 <= i < |users|
        ensures !Clash(users[i], u)
      {
        assert s[i] == users[i] && s[|users|] == u;
      }
    }
  }

  /** The compound indexes are per organization: the same e-mail and uniqueId may exist in two organizations. */
  lemma SameIdentityTwoOrganizations(a: User, b: User)
    requires a.email == b.email && a.uniqueId == b.uniqueId && a.organizationId != b.organizationId
    requires a.id != b.id
    ensures UniqueIndexes([a, b])
  {
  }

  /** E-mails that differ only in letter case or surrounding white space collide once cast. */
  lemma {:induction false} EmailsCollideIgnoringCase(users: seq<User>, u: User, f: UserFields, now: int, k: nat)
    requires k < |users| && f.email.Some? && f.organizationId.Some?
    requires users[k].email == ToLowerCase(Trim(f.email.value)) && users[k].organizationId == f.organizationId.value
    requires CastUser(u.id, f, now) == Success(u)
    ensures Collides(users, u)
  {
    CastNormalises(u.id, f, now);
    assert SameEmailKey(users[k], u);
  }

  // ----- the pre('save') hook -----

  /** The prefixes by which the hook recognises a bcrypt hash. */
  predicate IsBcryptHash(p: string)
    ensures IsBcryptHash(p) <==> |p| >= 4 && p[0] == '$' && p[1] == '2' && p[2] in {'a', 'b', 'y'} && p[3] == '$'
  {
    StartsWith(p, "$2a$") || StartsWith(p, "$2b$") || StartsWith(p, "$2y$")
  }

  /** `bcrypt.hash` with a fresh salt; `None` when it throws. */
  type Hasher = string -> Option<string>

  /** `next()` with the password that is saved, or `next(error)`, which aborts the save. */
  datatype HookOutcome = Proceed(password: string) | Abort

  /**
   * The pre-save hook: an unmodified password, or one that already looks like a bcrypt
   * hash, is kept; any other is replaced by its hash, and a failing hash aborts the save.
   */
  function PreSaveHook(modified: bool, password: string, hash: Hasher): (o: HookOutcome)
    ensures !modified ==> o == Proceed(password)
    ensures modified && IsBcryptHash(password) ==> o == Proceed(password)
    ensures modified && !IsBcryptHash(password) ==>
              (o.Proceed? <==> hash(password).Some?) && (o.Proceed? ==> o.password == hash(password).value)
  {
    if !modified then Proceed(password)
    else if IsBcryptHash(password) then Proceed(password)
    else match hash(password)
      case Some(h) => Proceed(h)
      case None => Abort
  }

  /** The assumption under which the hook is idempotent: every hash it produces carries a bcrypt prefix. */
  ghost predicate HashesCarryPrefix(hash: Hasher) {
    forall p :: hash(p).Some? ==> IsBcryptHash(hash(p).value)
  }

  /** Running the hook again on the password it saved changes nothing: a password is hashed at most once. */
  lemma HashAtMostOnce(modified: bool, password: string, hash: Hasher)
    requires HashesCarryPrefix(hash)
    requires PreSaveHook(modified, password, hash).Proceed?
    ensures PreSaveHook(modified, PreSaveHook(modified, password, hash).password, hash)
            == PreSaveHook(modified, password, hash)
  {
    if modified && !IsBcryptHash(password) {
      assert IsBcryptHash(hash(password).value);
    }
  }

  /** The user document the hook runs on, with the `isModified('password')` flag. */
  class UserDocument {
    var password: string
    var passwordModified: bool

    constructor (password: string, passwordModified: bool)
      ensures this.password == password && this.passwordModified == passwordModified
    {
      this.password := password;
      this.passwordModified := passwordModified;
    }

    /** Runs the hook; `proceeded` is false when it called `next(error)`, which leaves the password as it was. */
    method PreSave(hash: Hasher) returns (proceeded: bool)
      modifies this`password
      ensures proceeded <==> PreSaveHook(passwordModified, old(password), hash).Proceed?
      ensures proceeded ==> password == PreSaveHook(passwordModified, old(password), hash).password
      ensures !proceeded ==> password == old(password)
    {
      if !passwordModified {
        return true;
      }
      if IsBcryptHash(password) {
        return true;
      }
      var hashed := hash(password);
      if hashed.None? {
        return false;
      }
      password := hashed.value;
      proceeded := true;
    }
  }

  // ----- comparePassword -----

  /** `bcrypt.compare(candidate, hash)`. */
  type Comparer = (string, string) -> bool

  /** `comparePassword`: false for any candidate that is not a string, the comparer's verdict otherwise. */
  function ComparePassword(candidate: Json.Value, stored: string, compare: Comparer): (ok: bool)
    ensures !candidate.Str? ==> !ok
    ensures candidate.Str? ==> ok == compare(candidate.s, stored)
  {
    candidate.Str? && compare(candidate.s, stored)
  }

  /**
   * With a comparer that accepts every plaintext against the hash of it, a plaintext password
   * saved through the hook still verifies afterwards: it was hashed once, not twice.
   */
  lemma SavedPasswordVerifies(password: string, hash: Hasher, compare: Comparer)
    requires forall p :: hash(p).Some? ==> compare(p, hash(p).value)
    requires !IsBcryptHash(password)
    requires PreSaveHook(true, password, hash).Proceed?
    ensures ComparePassword(Json.Str(password), PreSaveHook(true, password, hash).password, compare)
  {
  }

  // ----- toJSON -----

  /** The document that Mongoose serialises, with every schema path. */
  function Serialised(u: User): (r: Json.Object)
    ensures "_id" in r && r["_id"] == Json.Str(u.id)
    ensures "password" in r && r["password"] == Json.Str(u.password)
  {
    map[
      "_id" := Json.Str(u.id),
      "email" := Json.Str(u.email),
      "uniqueId" := Json.Str(u.uniqueId),
      "password" := Json.Str(u.password),
      "role" := Json.Str(RoleName(u.role)),
      "displayName" := Json.Str(u.displayName),
      "position" := Json.Str(u.position),
      "userInterests" := Json.Str(u.userInterests),
      "phone" := Json.Str(u.phone),
      "notificationPreference" := Json.Str(PreferenceName(u.notificationPreference)),
      "referringAdminId" := Json.StrOrNull(u.referringAdminId),
      "organizationId" := Json.Str(u.organizationId),
      "createdAt" := Json.Num(u.createdAt)]
  }

  /** The serialised document has exactly the thirteen schema paths, `_id` included. */
  lemma SerialisedPaths(u: User)
    ensures Serialised(u).Keys == {"_id", "email", "uniqueId", "password", "role", "displayName", "position", "userInterests",
                                   "phone", "notificationPreference", "referringAdminId", "organizationId", "createdAt"}
  {
  }

  /** The effect of the transform: `_id` and `password` are gone, every other key keeps its value. */
  function JsonView(ret: Json.Object): (r: Json.Object)
    ensures r.Keys == ret.Keys - {"_id", "password"}
    ensures forall k :: k in r ==> r[k] == ret[k]
  {
    ret - {"_id", "password"}
  }

  /** The transform itself, deleting the two keys from `ret` in place. */
  method ToJsonTransform(ret: Json.Document)
    modifies ret
    ensures ret.fields == JsonView(old(ret.fields))
  {
    ret.Delete("_id");
    ret.Delete("password");
  }

  /** What a response shows of a user: everything but `_id` and the password, each value as serialised. */
  function PublicView(u: User): (v: Json.Object)
    ensures "password" !in v && "_id" !in v
    ensures v.Keys == Serialised(u).Keys - {"_id", "password"}
    ensures forall k :: k in v ==> v[k] == Serialised(u)[k]
  {
    JsonView(Serialised(u))
  }

  /** The view shows the user's identity: e-mail, uniqueId, role and organization. */
  lemma PublicViewShows(u: User)
    ensures var v := PublicView(u);
            && "email" in v && v["email"] == Json.Str(u.email)
            && "uniqueId" in v && v["uniqueId"] == Json.Str(u.uniqueId)
            && "role" in v && v["role"] == Json.Str(RoleName(u.role))
            && "organizationId" in v && v["organizationId"] == Json.Str(u.organizationId)
  {
    var ret := Serialised(u);
    assert "email" in ret && "uniqueId" in ret && "role" in ret && "organizationId" in ret;
  }
}
