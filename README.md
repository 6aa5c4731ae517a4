# ApiMuscu user API — a Dafny model

ApiMuscu is a minimal HTTP API that exposes one table of `User` rows through five
routes: list, get by id, create, update and delete. The logic lives in two places:

- `UserService`: `GetAll` and `GetById` are read-only queries. `AddUser` adds the row,
  `DeleteUser` looks it up and removes it, and `UpdateUser` looks it up and assigns two
  fields; each of these three then commits.
- The route handlers turn what the service returns into an HTTP response.

This project models both layers and proves the following:

- which rows a request leaves in the table;
- which columns an update changes;
- what each route answers;
- that nothing else changes.

Files and modules:

- `wrappers.dfy` (`Wrappers`): `Option`, standing for the source's nullable results.
- `users.dfy` (`Users`): the `User` record with its ten columns. `Id` and `Rights` are
  32-bit `int32`. Dates are opaque `DateTime` tick counts. `DeletionDate` is an `Option`.
  `WithNames` is the row after an update.
- `table.dfy` (`Table`): the table as a `seq<User>` whose keys are distinct (the primary
  key). It defines `FirstOrDefault(x => x.Id == id)` and the table after a delete
  (`Without`) and after an update (`Renamed`). The file also holds the lemmas that
  relate lookups to these updates.
- `service.dfy` (`Service`): `ApiDbContext` holds the table. `UserService` has `GetAll`
  and `GetById` as functions, and `AddUser`, `DeleteUser` and `UpdateUser` as methods
  that change the context's table. Each method states the whole new table and what
  later lookups return.
- `decimal.dfy` (`Decimal`): the decimal text of an `int`, used in the `Location` of a
  created user. It comes with its inverse, the reading of a `{id}` path segment back as
  an `int`, and a round-trip lemma.
- `routes.dfy` (`Routes`): one function per route. Each maps the table and the request
  parameters to a `Reply`: a response (`Ok`, `NotFound`, `Created`, `NoContent`,
  `BadRequest`) and the table afterwards. Handlers change the table only through the
  `Table` updates that the service methods are proved to perform. The `*Endpoint`
  methods are the handlers as the source writes them: they call the service on a
  `UserService` object and branch on its result, and each is proved to give the same
  reply and table as its handler function.
- `session.dfy` (`Session`): requests handled one after another. It proves what a later
  GET observes after a POST, DELETE or PUT, and how many rows GET /users lists after
  any run of requests. It also checks a sample session: create a user, update it
  with new names and a different mail, then fetch it.

The model reproduces these quirks of the code as they are written:

- DELETE of a missing id answers 400, not 404.
- PUT checks that the PATH id exists but updates the row with the BODY's id. When the
  two differ, the checked row is left alone and another row, or none, is updated
  (`Session.PutWithOtherBodyKey`).
- PUT answers 200 with the service object rather than the updated user.

## Model

| member | source | states |
|---|---|---|
| `Users.WithNames` | ApiMuscu.Api/Program.cs:143-151 | the updated row takes the source's first and last names; id, mail, password, username, birthdate, rights, creation and deletion dates keep the stored values |
| `Table.FirstIndex` | ApiMuscu.Api/Program.cs:132 | the position found holds key `id` and no earlier row does; none exactly when no row has key `id` |
| `Table.FirstOrDefault` | ApiMuscu.Api/Program.cs:123 | some row is returned exactly when a row with key `id` exists, and it is a stored row with that key |
| `Table.LookupByKey` | ApiMuscu.Api/Program.cs:123 | under the primary key, the lookup returns the one stored row whose key is `id` |
| `Table.Without` | ApiMuscu.Api/Program.cs:136 | after a hard delete a row remains exactly when it was present and its key differs from `id` |
| `Table.WithoutAbsent` | ApiMuscu.Api/Program.cs:131-141 | deleting a key that no row has leaves the table identical |
| `Table.WithoutPresent` | ApiMuscu.Api/Program.cs:131-139 | deleting a present key removes exactly one row and keeps the keys distinct |
| `Table.RemoveFoundRow` | ApiMuscu.Api/Program.cs:132-137 | removing the row the lookup found yields the table without that key |
| `Table.Renamed` | ApiMuscu.Api/Program.cs:143-151 | an update keeps every key and position; the row with the source's key becomes `WithNames` of itself, all other rows are unchanged |
| `Table.RenameFoundRow` | ApiMuscu.Api/Program.cs:145-150 | assigning the names on the row the lookup found yields the `Renamed` table |
| `Table.RenamedDistinct` | ApiMuscu.Api/Program.cs:143-151 | an update keeps the primary key |
| `Table.RenamedAbsent` | ApiMuscu.Api/Program.cs:145-147 | an update whose key no row has leaves the table identical |
| `Table.LookupAfterRename` | ApiMuscu.Api/Program.cs:143-151 | after an update the updated key finds the stored row with the new names; every other key finds what it found before |
| `Table.AppendDistinct` | ApiMuscu.Api/Program.cs:125-129 | inserting a row with a new key keeps the primary key |
| `Table.LookupAfterAppend` | ApiMuscu.Api/Program.cs:125-129 | after an insert, existing keys find what they found before, the new key finds the new row, other keys find nothing |
| `Service.ApiDbContext.constructor` | ApiMuscu.Api/Program.cs:97-103 | a context starts over a table whose keys are distinct |
| `Service.UserService.constructor` | ApiMuscu.Api/Program.cs:116-119 | the service works on the context it is given |
| `Service.UserService.GetAll` | ApiMuscu.Api/Program.cs:121 | the list holds every stored row and nothing else, as many as there are rows |
| `Service.UserService.GetById` | ApiMuscu.Api/Program.cs:123 | null exactly when no row has key `id`; otherwise the stored row with that key, the only one under the primary key; nothing is written |
| `Service.UserService.AddUser` | ApiMuscu.Api/Program.cs:125-129 | the table gains exactly the given row; `GetById` of its key returns it and every other key's lookup is unchanged; the primary key holds |
| `Service.UserService.DeleteUser` | ApiMuscu.Api/Program.cs:131-141 | returns true exactly when the key was present; the table afterwards is the old one without that key, one row shorter; on false nothing changed; the key is no longer found |
| `Service.UserService.UpdateUser` | ApiMuscu.Api/Program.cs:143-153 | the table becomes `Renamed`; an absent key leaves it identical; the key's row gets the new names only; other keys' lookups are unchanged |
| `Decimal.DecimalRoundTrip` | ApiMuscu.Api/Program.cs:40 | reading back the decimal text of a 32-bit integer gives that integer |
| `Decimal.DecimalInjective` | ApiMuscu.Api/Program.cs:40 | distinct ids have distinct decimal text, so distinct locations |
| `Routes.Location` | ApiMuscu.Api/Program.cs:40 | the location is `/users/` followed by text that reads back as the id |
| `Routes.HandleGetUsers` | ApiMuscu.Api/Program.cs:24-26 | 200 with a list of exactly the stored rows; the table is unchanged |
| `Routes.HandleGetUser` | ApiMuscu.Api/Program.cs:28-35 | 404 "User does not exist" exactly when no row has the key; otherwise 200 with the stored row with that key; the table is unchanged |
| `Routes.HandlePostUser` | ApiMuscu.Api/Program.cs:37-41 | the table gains the body as one row; the answer is 201 with the body and the location of its key |
| `Routes.HandleDeleteUser` | ApiMuscu.Api/Program.cs:43-49 | 204 exactly when a row with the key existed; otherwise 400 "User not found" with the table unchanged; afterwards no row has the key and all others remain |
| `Routes.HandlePutUser` | ApiMuscu.Api/Program.cs:51-60 | path key absent: 400 "User not found" and the table unchanged; present: 200 with the service object and the table updated by the body's key |
| `Routes.GetUsersEndpoint` | ApiMuscu.Api/Program.cs:24-26 | calls `GetAll` on the service and answers as `HandleGetUsers`; nothing is written |
| `Routes.GetUserEndpoint` | ApiMuscu.Api/Program.cs:28-35 | calls `GetById` and branches on null; the reply is that of `HandleGetUser`; nothing is written |
| `Routes.PostUserEndpoint` | ApiMuscu.Api/Program.cs:37-41 | calls `AddUser` and answers 201 with the location of the key; reply and new table are those of `HandlePostUser` |
| `Routes.DeleteUserEndpoint` | ApiMuscu.Api/Program.cs:43-49 | calls `DeleteUser` and branches on its result; reply and new table are those of `HandleDeleteUser` |
| `Routes.PutUserEndpoint` | ApiMuscu.Api/Program.cs:51-60 | calls `GetById` with the path key, then `UpdateUser` with the body; reply and new table are those of `HandlePutUser` |
| `Session.HandleStep` | ApiMuscu.Api/Program.cs:24-60 | every route keeps the primary key and changes the row count by +1 on 201, -1 on 204, 0 otherwise |
| `Session.RunCount` | ApiMuscu.Api/Program.cs:24-60 | after any run of requests, GET /users lists the starting rows plus those created minus those deleted |
| `Session.GetAfterPost` | ApiMuscu.Api/Program.cs:28-41 | GET of the id read back from POST's location returns the posted user; other keys are unaffected |
| `Session.GetAfterDelete` | ApiMuscu.Api/Program.cs:28-49 | after a 204 DELETE, GET of that key answers 404; other keys are unaffected |
| `Session.GetAfterPut` | ApiMuscu.Api/Program.cs:51-60 | a PUT whose body carries the path key shows, on GET, the new names with every other column as stored; other keys are unaffected |
| `Session.PutWithOtherBodyKey` | ApiMuscu.Api/Program.cs:51-60 | with a body key different from the path key, PUT still answers 200, the path key's row is unchanged, and an absent body key changes nothing |
| `Session.CreateUpdateFetch` | ApiMuscu.Api/Program.cs:28-60 | create {a@x.com, a, A, B}, update with names C, D and mail ignored@x.com, fetch: 201, 200, and the user shows C, D, a@x.com, a |
| `Session.AbsentKeyStatuses` | ApiMuscu.Api/Program.cs:28-49 | for a key no row has, GET answers 404 and DELETE answers 400 |

## Left out

- Host, dependency-injection and configuration setup (Program.cs:6-19, 62), including the fatal check for a missing connection string: startup plumbing.
- The constant `/Hello` route (Program.cs:21): it has no logic.
- Entity Framework and Npgsql internals: change tracking, column and table mapping, SQL generation and transaction behaviour of `SaveChanges`. Each service operation is modelled as one atomic update of the table.
- Service.UserService.AddUser: requires a key the table does not already hold. The database's generation of ids on insert is not modelled. A duplicate key would be a store fault, and store faults are left out.
- Routes.HandlePostUser: `Location` uses `newUser.Id` as read after `AddUser`. The model does not generate keys, so it takes that id to be the body's own key.
- Service.UserService.constructor: the source throws `ArgumentNullException` when given a null context. Dafny class types are non-null, so that case cannot be written.
- Store faults (constraint violations, an unreachable database), which the source lets propagate uncaught, and concurrency between requests, which the database resolves.
- JSON serialisation of bodies. The service object that PUT returns is the opaque payload `ServiceObject`.
- `DateTime` semantics. Dates are opaque tick counts, because no operation computes with them. Opaque dates also hide a precision loss. PostgreSQL stores timestamps to the microsecond, while a .NET `DateTime` counts 100 ns ticks, so a later request reads back dates without their sub-microsecond part. `Session.GetAfterPost`'s "GET returns exactly the posted user" holds for the date columns only up to that precision.
- The order of rows. The source promises none. The model's sequence order is arbitrary, and every contract that depends on it is stated under the primary key, where at most one row matches.
- Decimal.ParseInt32: reads only an optional `-` followed by digits. Formatting and reading assume the invariant culture, whose negative sign is `-`; the current culture may use another sign. The framework's `int` binding also accepts a leading `+` and surrounding white space. A path segment that does not bind to an `int` is rejected by the framework before any handler runs, and that dispatch is not modelled.
