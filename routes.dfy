/**
 * The HTTP routes of the API. Each handler is a function of the table as it
 * stands when the request arrives and the request's parameters; it gives the
 * response and the table after the request, changing the table only through
 * the same updates the user service's operations make.
 */
module Routes {
  import opened Wrappers
  import opened Users
  import opened Table
  import opened Decimal
  import opened Service

  /** A response body: the list of users, one user, or the serialised service object (opaque here). */
  datatype Payload = UserList(users: seq<User>) | OneUser(user: User) | ServiceObject

  datatype Response =
    | Ok(payload: Payload)
    | NotFound(message: string)
    | Created(location: string, user: User)
    | NoContent
    | BadRequest(message: string)

  /** The HTTP status code each kind of response carries. */
  function StatusCode(r: Response): int {
    match r
    case Ok(_) => 200
    case NotFound(_) => 404
    case Created(_, _) => 201
    case NoContent => 204
    case BadRequest(_) => 400
  }

  /** The response to a request, with the table the request leaves behind. */
  datatype Reply = Reply(response: Response, users: seq<User>)

  const UserDoesNotExist := "User does not exist"
  const UserNotFound := "User not found"
  const UsersPath := "/users/"

  /** The `Location` of the user stored under key `id`. */
  function Location(id: int32): (s: string)
    ensures |s| > |UsersPath| && s[..|UsersPath|] == UsersPath
    ensures ParseInt32(s[|UsersPath|..]) == Some(id)
  {
    DecimalRoundTrip(id);
    var s := UsersPath + DecimalString(id as int);
    assert s[|UsersPath|..] == DecimalString(id as int);
    s
  }

  /** GET /users: 200 with every row, and no write. */
  function HandleGetUsers(users: seq<User>): (r: Reply)
    ensures r.users == users
    ensures r.response.Ok? && r.response.payload.UserList?
    ensures |r.response.payload.users| == |users|
    ensures forall u :: u in r.response.payload.users <==> u in users
  {
    Reply(Ok(UserList(users)), users)
  }

  /** GET /users/{id}: 200 with the row whose key is `id`, else 404; no write. */
  function HandleGetUser(users: seq<User>, id: int32): (r: Reply)
    ensures r.users == users
    ensures r.response == NotFound(UserDoesNotExist) <==> !HasId(users, id)
    ensures HasId(users, id) ==> r.response.Ok? && r.response.payload.OneUser?
    ensures r.response.Ok? ==>
      (r.response.payload.OneUser? && r.response.payload.user in users && r.response.payload.user.id == id)
  {
    var user := FirstOrDefault(users, id);
    if user == None then Reply(NotFound(UserDoesNotExist), users)
    else Reply(Ok(OneUser(user.value)), users)
  }

  /**
   * POST /users: stores the body under its own key and answers 201 with the
   * body and the location built from the body's key. The key must be new.
   */
  function HandlePostUser(users: seq<User>, newUser: User): (r: Reply)
    requires !HasId(users, newUser.id)
    ensures |r.users| == |users| + 1
    ensures forall u :: u in r.users <==> u in users || u == newUser
    ensures r.response == Created(Location(newUser.id), newUser)
  {
    Reply(Created(Location(newUser.id), newUser), users + [newUser])
  }

  /** DELETE /users/{id}: 204 when a row with key `id` was deleted, else 400 and no write. */
  function HandleDeleteUser(users: seq<User>, id: int32): (r: Reply)
    ensures r.response == NoContent <==> HasId(users, id)
    ensures !HasId(users, id) ==> r == Reply(BadRequest(UserNotFound), users)
    ensures !HasId(r.users, id)
    ensures forall u :: u in r.users <==> u in users && u.id != id
  {
    if FirstOrDefault(users, id).Some? then Reply(NoContent, Without(users, id))
    else Reply(BadRequest(UserNotFound), users)
  }

  /**
   * PUT /users/{id}: checks that a row with the PATH key `id` exists, and if
   * so applies the update keyed by the BODY's key, answering 200 with the
   * service object; otherwise 400 and no write.
   */
  function HandlePutUser(users: seq<User>, id: int32, updateUser: User): (r: Reply)
    ensures !HasId(users, id) ==> r == Reply(BadRequest(UserNotFound), users)
    ensures HasId(users, id) ==> r.response == Ok(ServiceObject)
    ensures HasId(users, id) ==> r.users == Renamed(users, updateUser)
  {
    if FirstOrDefault(users, id).Some? then Reply(Ok(ServiceObject), Renamed(users, updateUser))
    else Reply(BadRequest(UserNotFound), users)
  }

  // ---------------------------------------------------------------------------
  // The handlers as the source writes them: calls on the service, then a branch
  // on what it returned. Each gives the reply and table of its function above.
  // ---------------------------------------------------------------------------

  /** GET /users, through the service. */
  method GetUsersEndpoint(users: UserService) returns (response: Response)
    ensures Reply(response, users.dbContext.users) == HandleGetUsers(users.dbContext.users)
  {
    response := Ok(UserList(users.GetAll()));
  }

  /** GET /users/{id}, through the service. */
  method GetUserEndpoint(users: UserService, id: int32) returns (response: Response)
    ensures Reply(response, users.dbContext.users) == HandleGetUser(users.dbContext.users, id)
  {
    var user := users.GetById(id);
    if user == None {
      return NotFound(UserDoesNotExist);
    }
    response := Ok(OneUser(user.value));
  }

  /** POST /users, through the service. */
  method PostUserEndpoint(users: UserService, newUser: User) returns (response: Response)
    requires users.Valid() && !HasId(users.dbContext.users, newUser.id)
    modifies users.dbContext
    ensures users.Valid()
    ensures Reply(response, users.dbContext.users) == HandlePostUser(old(users.dbContext.users), newUser)
  {
    users.AddUser(newUser);
    response := Created(Location(newUser.id), newUser);
  }

  /** DELETE /users/{id}, through the service. */
  method DeleteUserEndpoint(users: UserService, id: int32) returns (response: Response)
    requires users.Valid()
    modifies users.dbContext
    ensures users.Valid()
    ensures Reply(response, users.dbContext.users) == HandleDeleteUser(old(users.dbContext.users), id)
  {
    var result := users.DeleteUser(id);
    if result {
      return NoContent;
    }
    response := BadRequest(UserNotFound);
  }

  /** PUT /users/{id}, through the service: existence by the path key, update by the body. */
  method PutUserEndpoint(users: UserService, updateUser: User, id: int32) returns (response: Response)
    requires users.Valid()
    modifies users.dbContext
    ensures users.Valid()
    ensures Reply(response, users.dbContext.users) == HandlePutUser(old(users.dbContext.users), id, updateUser)
  {
    var currentUserExist := users.GetById(id);
    if currentUserExist != None {
      users.UpdateUser(updateUser);
      return Ok(ServiceObject);
    }
    response := BadRequest(UserNotFound);
  }
}
