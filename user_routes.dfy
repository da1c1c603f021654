/**
 * routes/userRoutes.js: `GET /` lists every user, `POST /` replaces the whole collection with
 * the request body (delete everything, then insert), and `POST /login` looks a user up by
 * e-mail, ignoring case, and compares the password as a plain string.
 */
module UserRoutes {
  import opened Wrappers
  import opened JsString
  import Json
  import opened Http
  import opened UserModel

  const SavedMessage := "Users saved successfully"
  /** The start of the message of a Mongoose validation error and of a MongoDB duplicate-key error. */
  const ValidationFailedMessage := "User validation failed"
  const DuplicateKeyMessage := "E11000 duplicate key error"
  const EmailNotFound := "Email not found"
  const InvalidPassword := "Invalid password"

  /** One document of an `insertMany` body: the `_id` it is stored under and its paths. */
  datatype BodyDocument = BodyDocument(id: string, fields: UserFields)

  /** Casting a sequence of documents one by one: all the casts, or none if one of them fails. */
  function CastEach<D, U, E>(docs: seq<D>, cast: D -> Result<U, E>): (r: Option<seq<U>>)
    ensures r.Some? <==> forall i :: 0 <= i < |docs| ==> cast(docs[i]).Success?
    ensures r.Some? ==> |r.value| == |docs|
    ensures r.Some? ==> forall i :: 0 <= i < |docs| ==> cast(docs[i]) == Success(r.value[i])
    decreases |docs|
  {
    if docs == [] then Some([])
    else match cast(docs[0])
      case Failure(_) => None
      case Success(u) =>
        match CastEach(docs[1..], cast)
        case None =>
          assert exists i :: 1 <= i < |docs| && !cast(docs[i]).Success? by {
            var j :| 0 <= j < |docs[1..]| && !cast(docs[1..][j]).Success?;
            assert docs[1..][j] == docs[j + 1];
          }
          None
        case Some(rest) =>
          assert forall i :: 1 <= i < |docs| ==> docs[i] == docs[1..][i - 1];
          Some([u] + rest)
  }

  /** Casting every document of the body; `insertMany` refuses the whole body if any one is invalid. */
  function CastAll(body: seq<BodyDocument>, now: int): (r: Option<seq<User>>)
    ensures r.Some? <==> forall i :: 0 <= i < |body| ==> CastUser(body[i].id, body[i].fields, now).Success?
    ensures r.Some? ==> |r.value| == |body|
    ensures r.Some? ==> forall i :: 0 <= i < |body| ==> CastUser(body[i].id, body[i].fields, now) == Success(r.value[i])
  {
    CastEach(body, (d: BodyDocument) => CastUser(d.id, d.fields, now))
  }

  /**
   * An ordered insert into `existing`: documents go in one after another and the insert
   * stops at the first one that would break a unique index, keeping those before it.
   * The result is `existing` followed by the longest prefix of `docs` that goes in, and
   * the document after that prefix, if any, collides.
   */
  function InsertOrdered(existing: seq<User>, docs: seq<User>): (r: seq<User>)
    ensures existing <= r && r <= existing + docs
    ensures exists n :: 0 <= n <= |docs| && r == existing + docs[..n]
                        && (n < |docs| ==> Collides(existing + docs[..n], docs[n]))
    ensures UniqueIndexes(existing) ==> UniqueIndexes(r)
    decreases |docs|
  {
    if docs == [] then
      assert existing == existing + docs[..0];
      existing
    else if Collides(existing, docs[0]) then
      assert existing == existing + docs[..0];
      existing
    else
      AppendKeepsIndexes(existing, docs[0]);
      var next := existing + [docs[0]];
      var r := InsertOrdered(next, docs[1..]);
      assert next + docs[1..] == existing + docs;
      PrefixAfterHead(existing, docs, r);
      r
  }

  /** One round of the insert loop: the next document goes in and the loop's invariant still holds. */
  lemma InsertStep(start: seq<User>, docs: seq<User>, i: nat, users: seq<User>)
    requires i < |docs| && users == start + docs[..i] && UniqueIndexes(users)
    requires InsertOrdered(users, docs[i..]) == InsertOrdered(start, docs)
    requires !Collides(users, docs[i])
    ensures users + [docs[i]] == start + docs[..i + 1]
    ensures UniqueIndexes(users + [docs[i]])
    ensures InsertOrdered(users + [docs[i]], docs[i + 1..]) == InsertOrdered(start, docs)
  {
    AppendKeepsIndexes(users, docs[i]);
    assert users + [docs[i]] == start + docs[..i + 1] by {
      assert docs[..i + 1] == docs[..i] + [docs[i]];
    }
    var rest := docs[i..];
    assert rest[0] == docs[i] && rest[1..] == docs[i + 1..];
    InsertHead(users, rest);
  }

  /** An ordered insert whose first document collides with nothing stores it and goes on with the rest. */
  lemma InsertHead(existing: seq<User>, docs: seq<User>)
    requires docs != [] && !Collides(existing, docs[0])
    ensures InsertOrdered(existing, docs) == InsertOrdered(existing + [docs[0]], docs[1..])
  {
  }

  /** A stopping prefix of the tail behind the head is a stopping prefix of the whole. */
  lemma PrefixAfterHead(existing: seq<User>, docs: seq<User>, r: seq<User>)
    requires docs != []
    requires exists m :: 0 <= m <= |docs[1..]| && r == existing + [docs[0]] + docs[1..][..m]
                         && (m < |docs[1..]| ==> Collides(existing + [docs[0]] + docs[1..][..m], docs[1..][m]))
    ensures exists n :: 0 <= n <= |docs| && r == existing + docs[..n]
                        && (n < |docs| ==> Collides(existing + docs[..n], docs[n]))
  {
    var m :| 0 <= m <= |docs[1..]| && r == existing + [docs[0]] + docs[1..][..m]
             && (m < |docs[1..]| ==> Collides(existing + [docs[0]] + docs[1..][..m], docs[1..][m]));
    assert docs[..m + 1] == [docs[0]] + docs[1..][..m];
    assert existing + [docs[0]] + docs[1..][..m] == existing + docs[..m + 1];
    assert m < |docs| - 1 ==> docs[1..][m] == docs[m + 1];
  }

  /** Every document goes in exactly when the documents, together with what is stored, keep both indexes. */
  lemma {:induction false} InsertsEverything(existing: seq<User>, docs: seq<User>)
    requires UniqueIndexes(existing)
    ensures InsertOrdered(existing, docs) == existing + docs <==> UniqueIndexes(existing + docs)
    decreases |docs|
  {
    if docs == [] {
      assert existing + docs == existing;
    } else {
      var next := existing + [docs[0]];
      assert next + docs[1..] == existing + docs;
      AppendKeepsIndexes(existing, docs[0]);
      if Collides(existing, docs[0]) {
        assert !UniqueIndexes(existing + docs) by {
          var i :| 0 <= i < |existing| && Clash(existing[i], docs[0]);
          var all := existing + docs;
          assert all[i] == existing[i] && all[|existing|] == docs[0];
        }
        assert |existing| < |existing + docs|;
      } else {
        InsertsEverything(next, docs[1..]);
        assert UniqueIndexes(existing + docs) ==> UniqueIndexes(next) by {
          if UniqueIndexes(existing + docs) {
            var all := existing + docs;
            assert forall i, j :: 0 <= i < j < |next| ==> next[i] == all[i] && next[j] == all[j];
          }
        }
      }
    }
  }

  /** `GET /`: every user of every organization, each shown without `_id` and password. */
  function ListReply(users: seq<User>): (r: Response)
    ensures r.status == 200 && r.body.Arr? && |r.body.items| == |users|
    ensures forall i :: 0 <= i < |users| ==> r.body.items[i] == Json.Obj(PublicView(users[i]))
    ensures forall i :: 0 <= i < |users| ==> "password" !in r.body.items[i].fields
  {
    Response(200, Json.Arr(seq(|users|, i requires 0 <= i < |users| => Json.Obj(PublicView(users[i])))))
  }

  /** The regular expression the route builds is `^${email}$`; an absent e-mail reads `undefined`. */
  function LoginPattern(email: Option<string>): (p: string)
    ensures email.Some? ==> p == email.value
    ensures email.None? ==> p == "undefined"
  {
    email.GetOr("undefined")
  }

  /**
   * The route splices the e-mail into the pattern without escaping it, so each `.` in it
   * matches any character. `DotMatches` is that case-insensitive whole-string match for
   * patterns whose only metacharacter is `.`.
   */
  predicate DotMatches(text: string, pattern: string) {
    |text| == |pattern|
    && forall i :: 0 <= i < |pattern| ==> pattern[i] == '.' || LowerChar(text[i]) == LowerChar(pattern[i])
  }

  /** As written, a login for `a.b@x.com` matches a stored `axb@x.com`, which is another address. */
  lemma UnescapedDotMatchesOther()
    ensures DotMatches("axb@x.com", "a.b@x.com")
    ensures !EqualsIgnoreCase("axb@x.com", "a.b@x.com")
  {
    assert ToLowerCase("axb@x.com")[1] == 'x';
    assert ToLowerCase("a.b@x.com")[1] == '.';
  }

  /** Without a `.` in the e-mail, the pattern as written and the escaped one agree. */
  lemma DotMatchesWithoutDots(text: string, pattern: string)
    requires '.' !in pattern
    ensures DotMatches(text, pattern) <==> EqualsIgnoreCase(text, pattern)
  {
    if DotMatches(text, pattern) {
      assert ToLowerCase(text) == ToLowerCase(pattern);
    }
    if EqualsIgnoreCase(text, pattern) {
      forall i | 0 <= i < |pattern| ensures LowerChar(text[i]) == LowerChar(pattern[i]) {
        assert ToLowerCase(text)[i] == ToLowerCase(pattern)[i];
      }
    }
  }

  /** `findOne` with the case-insensitive whole-string pattern: the first user, in stored order, whose e-mail matches. */
  function FindByEmail(users: seq<User>, pattern: string): (k: Option<nat>)
    ensures k.Some? ==> k.value < |users| && EqualsIgnoreCase(users[k.value].email, pattern)
    ensures k.Some? ==> forall j :: 0 <= j < k.value ==> !EqualsIgnoreCase(users[j].email, pattern)
    ensures k.None? <==> forall j :: 0 <= j < |users| ==> !EqualsIgnoreCase(users[j].email, pattern)
    decreases |users|
  {
    if users == [] then None
    else if EqualsIgnoreCase(users[0].email, pattern) then Some(0)
    else match FindByEmail(users[1..], pattern)
      case None => None
      case Some(k) => Some(k + 1)
  }

  /**
   * `POST /login`: 404 when no e-mail matches (the password is not looked at), 401 when the
   * first match's stored password differs from the given one, and otherwise that user.
   */
  function LoginReply(users: seq<User>, email: Option<string>, password: Option<string>): (r: Response)
    ensures r.status == 200 || r.status == 401 || r.status == 404
    ensures r.status == 404 <==> forall j :: 0 <= j < |users| ==> !EqualsIgnoreCase(users[j].email, LoginPattern(email))
    ensures r.status == 404 ==> r == ErrorReply(404, EmailNotFound)
    ensures r.status == 401 ==> r == ErrorReply(401, InvalidPassword)
    ensures r.status == 401 <==> exists k :: FindByEmail(users, LoginPattern(email)) == Some(k) && password != Some(users[k].password)
    ensures r.status == 200 ==>
              exists k :: FindByEmail(users, LoginPattern(email)) == Some(k) && password == Some(users[k].password)
                          && r.body == Json.Obj(map["user" := Json.Obj(PublicView(users[k]))])
  {
    match FindByEmail(users, LoginPattern(email))
    case None => ErrorReply(404, EmailNotFound)
    case Some(k) =>
      if password != Some(users[k].password) then ErrorReply(401, InvalidPassword)
      else Response(200, Json.Obj(map["user" := Json.Obj(PublicView(users[k]))]))
  }

  /** Whether an e-mail is known does not depend on the password given with it. */
  lemma UnknownEmailIgnoresPassword(users: seq<User>, email: Option<string>, p1: Option<string>, p2: Option<string>)
    ensures LoginReply(users, email, p1).status == 404 <==> LoginReply(users, email, p2).status == 404
  {
  }

  lemma {:induction false} FindIgnoresCase(users: seq<User>, e1: string, e2: string)
    requires ToLowerCase(e1) == ToLowerCase(e2)
    ensures FindByEmail(users, e1) == FindByEmail(users, e2)
    decreases |users|
  {
    if users != [] {
      FindIgnoresCase(users[1..], e1, e2);
    }
  }

  /** Two spellings of an e-mail that differ only in letter case log in alike. */
  lemma LoginIgnoresCase(users: seq<User>, e1: string, e2: string, password: Option<string>)
    requires ToLowerCase(e1) == ToLowerCase(e2)
    ensures LoginReply(users, Some(e1), password) == LoginReply(users, Some(e2), password)
  {
    FindIgnoresCase(users, e1, e2);
  }

  /** A request without a password never logs in: `undefined !== password` for every stored string. */
  lemma MissingPasswordRefused(users: seq<User>, email: Option<string>)
    ensures LoginReply(users, email, None).status != 200
  {
  }

  /** The users collection. */
  class UserCollection {
    var users: seq<User>

    /** The compound unique indexes hold of what is stored. */
    ghost predicate Valid()
      reads this
    {
      UniqueIndexes(users)
    }

    constructor ()
      ensures Valid() && users == []
    {
      users := [];
    }

    /** `GET /`. */
    method GetAll() returns (r: Response)
      ensures r == ListReply(users)
    {
      r := ListReply(users);
    }

    /** `POST /login`; it changes nothing. */
    method Login(email: Option<string>, password: Option<string>) returns (r: Response)
      ensures r == LoginReply(users, email, password)
    {
      r := LoginReply(users, email, password);
    }

    /**
     * `POST /`: `deleteMany({})` then `insertMany(body)`. The delete is not undone when the
     * insert fails: what remains is empty after a validation error, and the documents before
     * the first duplicate after a duplicate-key error; none of the earlier users survive.
     */
    method ReplaceAll(body: seq<BodyDocument>, now: int) returns (r: Response)
      modifies this
      ensures Valid()
      ensures r.status == 200 || r.status == 500
      ensures r.status == 500 ==> r.body.Obj? && "error" in r.body.fields
      ensures CastAll(body, now).None? ==> r.status == 500 && users == []
      ensures CastAll(body, now).Some? ==> users == InsertOrdered([], CastAll(body, now).value)
      ensures r.status == 200 <==> CastAll(body, now).Some? && UniqueIndexes(CastAll(body, now).value)
      ensures r.status == 200 ==> users == CastAll(body, now).value && r == Response(200, Json.Obj(map["message" := Json.Str(SavedMessage)]))
    {
      users := [];
      var cast := CastAll(body, now);
      if cast.None? {
        return ErrorReply(500, ValidationFailedMessage);
      }
      var docs := cast.value;
      var complete := InsertMany(docs);
      InsertsEverything([], docs);
      assert [] + docs == docs;
      if !complete {
        return ErrorReply(500, DuplicateKeyMessage);
      }
      r := Response(200, Json.Obj(map["message" := Json.Str(SavedMessage)]));
    }

    /** The ordered insert of documents that passed validation; `complete` tells whether all went in. */
    method InsertMany(docs: seq<User>) returns (complete: bool)
      requires Valid()
      modifies this
      ensures Valid()
      ensures users == InsertOrdered(old(users), docs)
      ensures complete <==> users == old(users) + docs
    {
      ghost var start := users;
      var i := 0;
      while i < |docs|
        invariant 0 <= i <= |docs|
        invariant users == start + docs[..i]
        invariant UniqueIndexes(users)
        invariant InsertOrdered(users, docs[i..]) == InsertOrdered(start, docs)
      {
        if Collides(users, docs[i]) {
          assert InsertOrdered(users, docs[i..]) == users;
          assert |users| < |start + docs|;
          return false;
        }
        InsertStep(start, docs, i, users);
        users := users + [docs[i]];
        i := i + 1;
      }
      assert docs[..i] == docs;
      complete := true;
    }
  }
}
