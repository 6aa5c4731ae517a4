/**
 * Requests in sequence against one table: what a later request observes of
 * an earlier one. Each request is handled to completion before the next.
 */
module Session {
  import opened Wrappers
  import opened Users
  import opened Table
  import opened Decimal
  import opened Routes

  /** The five user routes, with their path key and body. */
  datatype Request =
    | GetUsers
    | GetUser(id: int32)
    | PostUser(body: User)
    | DeleteUser(id: int32)
    | PutUser(id: int32, body: User)

  /** A POST must bring a key the table does not hold yet (key generation is not modelled). */
  ghost predicate Admissible(users: seq<User>, req: Request) {
    req.PostUser? ==> !HasId(users, req.body.id)
  }

  /** Routes a request to its handler. */
  function Handle(users: seq<User>, req: Request): Reply
    requires Admissible(users, req)
  {
    match req
    case GetUsers => HandleGetUsers(users)
    case GetUser(id) => HandleGetUser(users, id)
    case PostUser(body) => HandlePostUser(users, body)
    case DeleteUser(id) => HandleDeleteUser(users, id)
    case PutUser(id, body) => HandlePutUser(users, id, body)
  }

  /**
   * One request keeps the primary key, and changes the number of rows by one
   * up for a 201, one down for a 204, and not at all otherwise.
   */
  lemma HandleStep(users: seq<User>, req: Request)
    requires DistinctIds(users) && Admissible(users, req)
    ensures DistinctIds(Handle(users, req).users)
    ensures var r := Handle(users, req);
      |r.users| == |users| + (if r.response.Created? then 1 else 0) - (if r.response == NoContent then 1 else 0)
  {
    match req
    case GetUsers =>
    case GetUser(id) =>
    case PostUser(body) => AppendDistinct(users, body);
    case DeleteUser(id) =>
      if HasId(users, id) { WithoutPresent(users, id); } else { WithoutAbsent(users, id); }
    case PutUser(id, body) => RenamedDistinct(users, body);
  }

  /** Every POST in `reqs` brings a new key at the moment it is handled. */
  ghost predicate Feasible(users: seq<User>, reqs: seq<Request>)
    decreases |reqs|
  {
    reqs == [] || (Admissible(users, reqs[0]) && Feasible(Handle(users, reqs[0]).users, reqs[1..]))
  }

  /** The responses to a run of requests, in order, and the table they leave. */
  datatype Trace = Trace(responses: seq<Response>, final: seq<User>)

  function Run(users: seq<User>, reqs: seq<Request>): (t: Trace)
    requires Feasible(users, reqs)
    ensures |t.responses| == |reqs|
    decreases |reqs|
  {
    if reqs == [] then Trace([], users)
    else
      var first := Handle(users, reqs[0]);
      var rest := Run(first.users, reqs[1..]);
      Trace([first.response] + rest.responses, rest.final)
  }

  function CountCreated(responses: seq<Response>): nat {
    if responses == [] then 0 else (if responses[0].Created? then 1 else 0) + CountCreated(responses[1..])
  }

  function CountNoContent(responses: seq<Response>): nat {
    if responses == [] then 0 else (if responses[0] == NoContent then 1 else 0) + CountNoContent(responses[1..])
  }

  /**
   * After any run of requests, the table keeps its primary key and holds as
   * many rows as it started with, plus one per user created, minus one per
   * user deleted; so a GET /users afterwards lists exactly that many.
   */
  lemma {:induction false} RunCount(users: seq<User>, reqs: seq<Request>)
    requires DistinctIds(users) && Feasible(users, reqs)
    ensures DistinctIds(Run(users, reqs).final)
    ensures |HandleGetUsers(Run(users, reqs).final).response.payload.users| ==
      |users| + CountCreated(Run(users, reqs).responses) - CountNoContent(Run(users, reqs).responses)
    decreases |reqs|
  {
    if reqs != [] {
      var first := Handle(users, reqs[0]);
      HandleStep(users, reqs[0]);
      RunCount(first.users, reqs[1..]);
    }
  }

  /**
   * After POST /users stores a user, a GET of the id read back from the
   * returned location finds exactly that user, and every other key finds
   * what it found before.
   */
  lemma GetAfterPost(users: seq<User>, newUser: User, k: int32)
    requires !HasId(users, newUser.id)
    ensures var post := HandlePostUser(users, newUser);
      var id := ParseInt32(post.response.location[|UsersPath|..]).value;
      HandleGetUser(post.users, id).response == Ok(OneUser(newUser))
    ensures k != newUser.id ==>
      HandleGetUser(HandlePostUser(users, newUser).users, k).response == HandleGetUser(users, k).response
  {
    LookupAfterAppend(users, newUser, newUser.id);
    LookupAfterAppend(users, newUser, k);
  }

  /**
   * After a DELETE /users/{id} that answered 204, a GET of that id answers
   * 404, and every other key finds what it found before.
   */
  lemma GetAfterDelete(users: seq<User>, id: int32, k: int32)
    requires DistinctIds(users)
    requires HandleDeleteUser(users, id).response == NoContent
    ensures HandleGetUser(HandleDeleteUser(users, id).users, id).response == NotFound(UserDoesNotExist)
    ensures k != id ==>
      HandleGetUser(HandleDeleteUser(users, id).users, k).response == HandleGetUser(users, k).response
  {
    var after := HandleDeleteUser(users, id).users;
    WithoutPresent(users, id);
    LookupByKey(users, k);
    LookupByKey(after, k);
    if k != id && HasId(users, k) {
      var u := FirstOrDefault(users, k).value;
      assert u in after;
    }
    if k != id && HasId(after, k) {
      var u := FirstOrDefault(after, k).value;
      assert u in users;
    }
  }

  /**
   * A PUT whose body carries the path key changes only the first and last
   * names of that user: a GET afterwards shows the new names with every
   * other column as stored, and every other key finds what it found before.
   */
  lemma GetAfterPut(users: seq<User>, id: int32, updateUser: User, k: int32)
    requires FirstOrDefault(users, id).Some? && updateUser.id == id
    ensures HandleGetUser(HandlePutUser(users, id, updateUser).users, id).response ==
      Ok(OneUser(WithNames(FirstOrDefault(users, id).value, updateUser)))
    ensures k != id ==>
      HandleGetUser(HandlePutUser(users, id, updateUser).users, k).response == HandleGetUser(users, k).response
  {
    LookupAfterRename(users, updateUser, id);
    LookupAfterRename(users, updateUser, k);
  }

  /**
   * A PUT checks the PATH key but updates by the BODY key: when they differ,
   * the user at the path key is left as it was, and when no row has the body
   * key the whole table is left as it was, though the answer is still 200.
   */
  lemma PutWithOtherBodyKey(users: seq<User>, id: int32, updateUser: User)
    requires HasId(users, id) && updateUser.id != id
    ensures HandlePutUser(users, id, updateUser).response == Ok(ServiceObject)
    ensures HandleGetUser(HandlePutUser(users, id, updateUser).users, id).response == HandleGetUser(users, id).response
    ensures !HasId(users, updateUser.id) ==> HandlePutUser(users, id, updateUser).users == users
  {
    LookupAfterRename(users, updateUser, id);
    if !HasId(users, updateUser.id) {
      RenamedAbsent(users, updateUser);
    }
  }

  /**
   * A sample session: create a user, update it with new names
   * and a different mail, then fetch it. The names are the new ones and the
   * mail is the one it was created with.
   */
  lemma CreateUpdateFetch(users: seq<User>, created: User, update: User)
    requires !HasId(users, created.id)
    requires created.mail == "a@x.com" && created.userName == "a"
    requires created.firstName == "A" && created.lastName == "B"
    requires update.id == created.id && update.mail == "ignored@x.com"
    requires update.firstName == "C" && update.lastName == "D"
    ensures var post := HandlePostUser(users, created);
      var put := HandlePutUser(post.users, created.id, update);
      var get := HandleGetUser(put.users, created.id);
      && StatusCode(post.response) == 201
      && StatusCode(put.response) == 200
      && get.response.Ok? && get.response.payload.OneUser?
      && get.response.payload.user.firstName == "C"
      && get.response.payload.user.lastName == "D"
      && get.response.payload.user.mail == "a@x.com"
      && get.response.payload.user.userName == "a"
  {
    var post := HandlePostUser(users, created);
    LookupAfterAppend(users, created, created.id);
    GetAfterPut(post.users, created.id, update, created.id);
  }

  /** For a key no row has, GET answers 404 and DELETE answers 400. */
  lemma AbsentKeyStatuses(users: seq<User>, id: int32)
    requires !HasId(users, id)
    ensures StatusCode(HandleGetUser(users, id).response) == 404
    ensures StatusCode(HandleDeleteUser(users, id).response) == 400
  {
  }
}
