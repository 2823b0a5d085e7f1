/**
 * A stored user row. The user entity itself is not part of this model: its
 * fields are those the user service reads and writes.
 */
module Users {
  import opened Wrappers
  import opened JavaText

  datatype User = User(
    id: int,
    firstName: string,
    lastName: string,
    email: string,
    phoneNumber: string,
    address: string)

  /** A partial update: a None field is one the request left out (null). */
  datatype UserPatch = UserPatch(
    firstName: Option<string>,
    lastName: Option<string>,
    email: Option<string>,
    phoneNumber: Option<string>,
    address: Option<string>)

  /** The message of a missing user: the id written as Long.toString writes it. */
  function UserNotFound(userId: int): string {
    "User not found with ID: " + LongToString(userId)
  }
}
