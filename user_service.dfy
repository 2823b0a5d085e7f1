/**
 * The user service: registration, reading, partial update and deletion of
 * a user. Every call but registration first checks that the requester is
 * the user concerned (Forbidden), and only then that the user exists
 * (ResourceNotFound), so a stranger learns nothing about which ids exist.
 */
module UserService {
  import opened Wrappers
  import opened Errors
  import opened JavaText
  import opened Users
  import opened Repositories
  import opened Store

  const EmailTaken := "Email already exists"

  /** getUserById: the requester's own row. */
  function GetUserById(users: map<int, User>, userId: int, authenticatedUserId: int): (r: Outcome<User>)
    ensures r == Failure(Forbidden("You can only access your own user details")) <==> userId != authenticatedUserId
    ensures r == Failure(ResourceNotFound(UserNotFound(userId))) <==> userId == authenticatedUserId && userId !in users
    ensures r.Success? <==> userId == authenticatedUserId && userId in users
    ensures r.Success? ==> r.value == users[userId]
  {
    if userId != authenticatedUserId then Failure(Forbidden("You can only access your own user details"))
    else if userId !in users then Failure(ResourceNotFound(UserNotFound(userId)))
    else Success(users[userId])
  }

  /**
   * A stranger's read is refused whatever is stored: the answer is the same
   * whether or not the user exists.
   */
  lemma StrangerLearnsNothing(users: map<int, User>, others: map<int, User>, userId: int, authenticatedUserId: int)
    requires userId != authenticatedUserId
    ensures GetUserById(users, userId, authenticatedUserId) == GetUserById(others, userId, authenticatedUserId)
  {
  }

  /** The user after a partial update: each supplied field replaces the stored one, the rest stay. */
  function Patched(u: User, p: UserPatch): (r: User)
    ensures r.id == u.id
    ensures r.firstName == (if p.firstName.Some? then p.firstName.value else u.firstName)
    ensures r.lastName == (if p.lastName.Some? then p.lastName.value else u.lastName)
    ensures r.email == (if p.email.Some? then p.email.value else u.email)
    ensures r.phoneNumber == (if p.phoneNumber.Some? then p.phoneNumber.value else u.phoneNumber)
    ensures r.address == (if p.address.Some? then p.address.value else u.address)
  {
    User(u.id,
         if p.firstName.Some? then p.firstName.value else u.firstName,
         if p.lastName.Some? then p.lastName.value else u.lastName,
         if p.email.Some? then p.email.value else u.email,
         if p.phoneNumber.Some? then p.phoneNumber.value else u.phoneNumber,
         if p.address.Some? then p.address.value else u.address)
  }

  /** A patch that supplies nothing leaves the user as stored. */
  lemma EmptyPatchIsIdentity(u: User)
    ensures Patched(u, UserPatch(None, None, None, None, None)) == u
  {
  }

  /** Applying the same patch twice is applying it once. */
  lemma PatchIdempotent(u: User, p: UserPatch)
    ensures Patched(Patched(u, p), p) == Patched(u, p)
  {
  }

  /** The update's email clash: a new email, different from the user's own, that another user holds. */
  predicate EmailClash(users: map<int, User>, u: User, p: UserPatch) {
    p.email.Some? && p.email.value != u.email && ExistsByEmail(users, p.email.value)
  }

  /** Resubmitting one's own email never clashes, whoever else is stored. */
  lemma OwnEmailNeverClashes(users: map<int, User>, u: User, p: UserPatch)
    requires p.email == Some(u.email)
    ensures !EmailClash(users, u, p)
  {
  }

  /** An update that does not clash keeps every email held by one user only. */
  lemma NoClashKeepsEmailsUnique(users: map<int, User>, userId: int, p: UserPatch)
    requires UsersKeyed(users) && EmailsUnique(users) && userId in users && !EmailClash(users, users[userId], p)
    ensures EmailsUnique(users[userId := Patched(users[userId], p)])
  {
  }

  /** createUser: refused when the email is taken, otherwise stored under the next id. */
  method CreateUser(db: Database, firstName: string, lastName: string, email: string, phoneNumber: string, address: string)
    returns (r: Outcome<User>)
    requires db.Valid()
    modifies db`users, db`nextUserId
    ensures db.Valid()
    ensures r.Failure? <==> ExistsByEmail(old(db.users), email)
    ensures r.Failure? ==> r.error == Conflict(EmailTaken) && unchanged(db)
    ensures r.Success? ==> && r.value == User(old(db.nextUserId), firstName, lastName, email, phoneNumber, address)
                           && db.users == old(db.users)[r.value.id := r.value]
                           && db.nextUserId == old(db.nextUserId) + 1
                           && FindByEmail(db.users, email) == Some(r.value)
  {
    if ExistsByEmail(db.users, email) {
      return Failure(Conflict(EmailTaken));
    }
    InsertUserKeepsInvariant(db.users, db.accounts, db.transactions, db.openingBalance,
      db.nextUserId, db.nextAccountId, db.nextTransactionId,
      User(db.nextUserId, firstName, lastName, email, phoneNumber, address));
    var u := db.InsertUser(firstName, lastName, email, phoneNumber, address);
    FindByEmailUnique(db.users, email, u.id);
    r := Success(u);
  }

  /**
   * updateUser: Forbidden, then ResourceNotFound, then the email clash;
   * otherwise every supplied field replaces the stored one. A refused call
   * stores nothing.
   */
  method UpdateUser(db: Database, userId: int, authenticatedUserId: int, patch: UserPatch) returns (r: Outcome<User>)
    requires db.Valid()
    modifies db`users
    ensures db.Valid()
    ensures userId != authenticatedUserId ==> r == Failure(Forbidden("You can only update your own user details"))
    ensures userId == authenticatedUserId && userId !in old(db.users) ==>
              r == Failure(ResourceNotFound(UserNotFound(userId)))
    ensures userId == authenticatedUserId && userId in old(db.users) && EmailClash(old(db.users), old(db.users)[userId], patch) ==>
              r == Failure(Conflict(EmailTaken))
    ensures r.Success? <==>
              userId == authenticatedUserId && userId in old(db.users) && !EmailClash(old(db.users), old(db.users)[userId], patch)
    ensures r.Failure? ==> unchanged(db)
    ensures r.Success? ==> && userId == authenticatedUserId && userId in old(db.users)
                           && !EmailClash(old(db.users), old(db.users)[userId], patch)
                           && r.value == Patched(old(db.users)[userId], patch)
                           && db.users == old(db.users)[userId := r.value]
  {
    if userId != authenticatedUserId {
      return Failure(Forbidden("You can only update your own user details"));
    }
    var found := FindById(db.users, userId);
    if found.None? {
      return Failure(ResourceNotFound(UserNotFound(userId)));
    }
    var user := found.value;
    if patch.firstName.Some? {
      user := user.(firstName := patch.firstName.value);
    }
    if patch.lastName.Some? {
      user := user.(lastName := patch.lastName.value);
    }
    if patch.email.Some? {
      if user.email != patch.email.value && ExistsByEmail(db.users, patch.email.value) {
        return Failure(Conflict(EmailTaken));
      }
      user := user.(email := patch.email.value);
    }
    if patch.phoneNumber.Some? {
      user := user.(phoneNumber := patch.phoneNumber.value);
    }
    if patch.address.Some? {
      user := user.(address := patch.address.value);
    }
    SaveUserKeepsInvariant(db.users, db.accounts, db.transactions, db.openingBalance,
      db.nextUserId, db.nextAccountId, db.nextTransactionId, user);
    db.SaveUser(user);
    r := Success(user);
  }

  /**
   * deleteUser: Forbidden, then ResourceNotFound, then Conflict while the
   * user owns any account; otherwise the user's row is removed.
   */
  method DeleteUser(db: Database, userId: int, authenticatedUserId: int) returns (r: Outcome<()>)
    requires db.Valid()
    modifies db`users
    ensures db.Valid()
    ensures userId != authenticatedUserId ==> r == Failure(Forbidden("You can only delete your own user account"))
    ensures userId == authenticatedUserId && userId !in old(db.users) ==>
              r == Failure(ResourceNotFound(UserNotFound(userId)))
    ensures userId == authenticatedUserId && userId in old(db.users) && HasBankAccounts(db.accounts, userId) ==>
              r == Failure(Conflict("Cannot delete user with existing bank accounts"))
    ensures r.Success? <==> userId == authenticatedUserId && userId in old(db.users) && !HasBankAccounts(db.accounts, userId)
    ensures r.Failure? ==> unchanged(db)
    ensures r.Success? ==> db.users == old(db.users) - {userId}
  {
    if userId != authenticatedUserId {
      return Failure(Forbidden("You can only delete your own user account"));
    }
    var found := FindById(db.users, userId);
    if found.None? {
      return Failure(ResourceNotFound(UserNotFound(userId)));
    }
    if HasBankAccounts(db.accounts, userId) {
      return Failure(Conflict("Cannot delete user with existing bank accounts"));
    }
    RemoveUserKeepsInvariant(db.users, db.accounts, db.transactions, db.openingBalance,
      db.nextUserId, db.nextAccountId, db.nextTransactionId, userId);
    db.RemoveUser(userId);
    r := Success(());
  }
}
