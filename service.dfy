/**
 * The data context and the user service. The context owns the `users` table;
 * the service reads it through two queries and changes it through three
 * operations, each of which commits as one atomic update of the table.
 */
module Service {
  import opened Wrappers
  import opened Users
  import opened Table

  /** The data context: the committed contents of its `Users` set. */
  class ApiDbContext {
    var users: seq<User>

    constructor (rows: seq<User>)
      requires DistinctIds(rows)
      ensures users == rows
    {
      users := rows;
    }
  }

  class UserService {
    const dbContext: ApiDbContext

    /** The service over a context; the context cannot be null here, so there is no null check to model. */
    constructor (dbContext: ApiDbContext)
      ensures this.dbContext == dbContext
    {
      this.dbContext := dbContext;
    }

    /** The table's primary key holds. */
    ghost predicate Valid()
      reads this, dbContext
    {
      DistinctIds(dbContext.users)
    }

    /** Every row of the table, each once, in no promised order. */
    function GetAll(): (r: seq<User>)
      reads this, dbContext
      ensures |r| == |dbContext.users|
      ensures forall u :: u in r <==> u in dbContext.users
    {
      dbContext.users
    }

    /** The row whose key is `id`, or none when no row has it. */
    function GetById(id: int32): (r: Option<User>)
      reads this, dbContext
      ensures r.None? <==> !HasId(dbContext.users, id)
      ensures r.Some? ==> r.value in dbContext.users && r.value.id == id
      ensures Valid() ==> forall u :: u in dbContext.users && u.id == id ==> r == Some(u)
    {
      LookupByKey(dbContext.users, id);
      FirstOrDefault(dbContext.users, id)
    }

    /** Inserts `user` as one new row; the caller supplies a key not yet in the table. */
    method AddUser(user: User)
      requires Valid()
      requires !HasId(dbContext.users, user.id)
      modifies dbContext
      ensures Valid()
      ensures dbContext.users == old(dbContext.users) + [user]
      ensures GetById(user.id) == Some(user)
      ensures forall k :: k != user.id ==> GetById(k) == old(GetById(k))
    {
      AppendDistinct(dbContext.users, user);
      dbContext.users := dbContext.users + [user];
      forall k: int32 ensures GetById(k) == if k == user.id then Some(user) else old(GetById(k)) {
        LookupAfterAppend(old(dbContext.users), user, k);
      }
    }

    /**
     * Hard-deletes the row with key `id`. Reports whether there was one; when
     * there was not, nothing is written.
     */
    method DeleteUser(id: int32) returns (deleted: bool)
      requires Valid()
      modifies dbContext
      ensures Valid()
      ensures deleted <==> old(HasId(dbContext.users, id))
      ensures dbContext.users == Without(old(dbContext.users), id)
      ensures !deleted ==> dbContext.users == old(dbContext.users)
      ensures deleted ==> |dbContext.users| == old(|dbContext.users|) - 1
      ensures GetById(id) == None
    {
      var userForDeletion := FirstIndex(dbContext.users, id);
      if userForDeletion.Some? {
        var i := userForDeletion.value;
        RemoveFoundRow(dbContext.users, id, i);
        WithoutPresent(dbContext.users, id);
        dbContext.users := dbContext.users[..i] + dbContext.users[i + 1..];
        deleted := true;
      } else {
        WithoutAbsent(dbContext.users, id);
        deleted := false;
      }
    }

    /**
     * Copies `userForUpdate`'s first and last names onto the stored row with
     * the same key; every other column and every other row stay as they were.
     * When no row has that key the call silently does nothing.
     */
    method UpdateUser(userForUpdate: User)
      requires Valid()
      modifies dbContext
      ensures Valid()
      ensures dbContext.users == Renamed(old(dbContext.users), userForUpdate)
      ensures !old(HasId(dbContext.users, userForUpdate.id)) ==> dbContext.users == old(dbContext.users)
      ensures forall k :: k != userForUpdate.id ==> GetById(k) == old(GetById(k))
      ensures old(GetById(userForUpdate.id)).Some? ==>
        GetById(userForUpdate.id) == Some(WithNames(old(GetById(userForUpdate.id)).value, userForUpdate))
    {
      var currentUser := FirstIndex(dbContext.users, userForUpdate.id);
      if currentUser.Some? {
        var i := currentUser.value;
        RenameFoundRow(dbContext.users, userForUpdate, i);
        RenamedDistinct(dbContext.users, userForUpdate);
        dbContext.users := dbContext.users[i := WithNames(dbContext.users[i], userForUpdate)];
      } else {
        RenamedAbsent(dbContext.users, userForUpdate);
      }
      forall k: int32 ensures GetById(k) == match old(GetById(k))
        case None => None
        case Some(u) => if k == userForUpdate.id then Some(WithNames(u, userForUpdate)) else Some(u)
      {
        LookupAfterRename(old(dbContext.users), userForUpdate, k);
      }
    }
  }
}
