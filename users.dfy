/**
 * The `User` record of the API: one row of the `users` table, with the ten
 * columns id, mail, password, username, first_name, last_name, birthdate,
 * rights, creation_date and deletion_date.
 */
module Users {
  import opened Wrappers

  /** A C# `int`: a signed 32-bit integer. */
  newtype int32 = x: int | -0x8000_0000 <= x < 0x8000_0000

  /**
   * A `DateTime`, kept as an opaque tick count: no operation of the service
   * computes with dates, it only stores and copies them.
   */
  datatype DateTime = DateTime(ticks: int)

  datatype User = User(
    id: int32,
    mail: string,
    password: string,
    userName: string,
    firstName: string,
    lastName: string,
    birthdate: DateTime,
    rights: int32,
    creationDate: DateTime,
    deletionDate: Option<DateTime>)

  /**
   * The stored row `current` after an update from `source`: only the first
   * and last names are copied; every other column, the key included, keeps
   * the stored value.
   */
  function WithNames(current: User, source: User): (r: User)
    ensures r.firstName == source.firstName && r.lastName == source.lastName
    ensures r.id == current.id && r.mail == current.mail
    ensures r.password == current.password && r.userName == current.userName
    ensures r.birthdate == current.birthdate && r.rights == current.rights
    ensures r.creationDate == current.creationDate && r.deletionDate == current.deletionDate
  {
    current.(firstName := source.firstName, lastName := source.lastName)
  }
}
