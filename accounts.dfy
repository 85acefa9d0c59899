/**
 * Profile self-service over the user table (src/user/user.service.ts):
 * partial update, password change and soft delete.
 */
module Accounts {
  import opened Wrappers
  import opened Errors
  import opened Users

  /** The body of the update request: every registration field, all optional, plus the target id. */
  datatype UpdateDto = UpdateDto(
    idUser: string,
    firstName: Option<string>,
    lastName: Option<string>,
    email: Option<string>,
    nationalId: Option<string>,
    password: Option<string>,
    phoneNumber: Option<string>)

  datatype ChangePasswordDto = ChangePasswordDto(oldPassword: string, newPassword: string)

  datatype DeleteDto = DeleteDto(idUser: string)

  /** The `{ ok, message }` body the service answers with. */
  datatype Ack = Ack(ok: bool, message: string)

  const Updated := Ack(true, "Usuario actualizado correctamente")
  const PasswordChanged := Ack(true, "Contrase\U{00F1}a actualizada correctamente")
  const Deactivated := Ack(true, "Usuario desactivado correctamente")

  /** The user after the `??` assignments of `update`. */
  function Merge(u: User, dto: UpdateDto): (r: User)
    // a field the request carries replaces the stored one, an absent one keeps it
    ensures dto.firstName.Some? ==> r.firstName == dto.firstName.value
    ensures dto.firstName.None? ==> r.firstName == u.firstName
    ensures dto.lastName.Some? ==> r.lastName == dto.lastName.value
    ensures dto.lastName.None? ==> r.lastName == u.lastName
    ensures dto.email.Some? ==> r.email == dto.email.value
    ensures dto.email.None? ==> r.email == u.email
    ensures dto.nationalId.Some? ==> r.nationalId == dto.nationalId.value
    ensures dto.nationalId.None? ==> r.nationalId == u.nationalId
    ensures dto.phoneNumber.Some? ==> r.phoneNumber == dto.phoneNumber
    ensures dto.phoneNumber.None? ==> r.phoneNumber == u.phoneNumber
    // no other field changes: in particular the password the request may carry is ignored
    ensures r.(firstName := u.firstName, lastName := u.lastName, email := u.email,
               nationalId := u.nationalId, phoneNumber := u.phoneNumber) == u
  {
    u.(firstName := dto.firstName.GetOr(u.firstName),
       lastName := dto.lastName.GetOr(u.lastName),
       email := dto.email.GetOr(u.email),
       nationalId := dto.nationalId.GetOr(u.nationalId),
       phoneNumber := if dto.phoneNumber.Some? then dto.phoneNumber else u.phoneNumber)
  }

  /** Applying the same update twice is the same as applying it once. */
  lemma MergeIdempotent(u: User, dto: UpdateDto)
    ensures Merge(Merge(u, dto), dto) == Merge(u, dto)
  {
  }

  /** An update that carries no field leaves the user as it was. */
  lemma EmptyUpdateChangesNothing(u: User, id: string, password: Option<string>)
    ensures Merge(u, UpdateDto(id, None, None, None, None, password, None)) == u
  {
  }

  /** The user after a password change: new hash, new modification time. */
  function WithPassword(u: User, hashed: string, now: int): (r: User)
    ensures r.password == hashed && r.updatedAt == now
    ensures r.(password := u.password, updatedAt := u.updatedAt) == u
  {
    u.(password := hashed, updatedAt := now)
  }

  /** The user after a soft delete: inactive, with a deletion time; the row is kept. */
  function Deactivate(u: User, now: int): (r: User)
    ensures !r.isActive && r.deletedAt == Some(now) && r.updatedAt == now
    ensures r.(isActive := u.isActive, deletedAt := u.deletedAt, updatedAt := u.updatedAt) == u
  {
    u.(deletedAt := Some(now), updatedAt := now, isActive := false)
  }

  /** With the primary key in force, once a user is soft-deleted no lookup by its id finds it. */
  lemma DeactivatedIsHidden(users: seq<User>, k: int, now: int)
    requires UniqueKeys(users) && 0 <= k < |users|
    ensures FindById(Replace(users, Deactivate(users[k], now)), users[k].id).None?
  {
    var gone := Deactivate(users[k], now);
    var after := Replace(users, gone);
    forall v | v in after ensures v.id != gone.id || !Visible(v) {
      var j :| 0 <= j < |after| && after[j] == v;
    }
  }

  /**
   * The profile service. `compare` is the password check (`compareSync`) and
   * `hashPassword` the one-way hash; both are opaque here.
   */
  class UserService {
    const users: UserTable
    const compare: (string, string) -> bool
    const hashPassword: string -> string

    constructor (users: UserTable, compare: (string, string) -> bool, hashPassword: string -> string)
      ensures this.users == users && this.compare == compare && this.hashPassword == hashPassword
    {
      this.users := users;
      this.compare := compare;
      this.hashPassword := hashPassword;
    }

    /** `update(userId, dto)`: only the caller's own row, only the fields the request carries. */
    method Update(userId: string, dto: UpdateDto) returns (r: Result<Ack, Error>)
      requires users.Valid()
      modifies users
      ensures users.Valid()
      ensures dto.idUser != userId ==>
        r == Failure(Unauthorized(CannotUpdateOtherUser)) && users.rows == old(users.rows)
      ensures dto.idUser == userId && FindById(old(users.rows), userId).None? ==>
        r == Failure(Unauthorized(UserNotFound)) && users.rows == old(users.rows)
      ensures dto.idUser == userId && FindById(old(users.rows), userId).Some? ==>
        var merged := Merge(FindById(old(users.rows), userId).value, dto);
        if Collides(old(users.rows), merged)
        then r == Failure(UniqueViolation) && users.rows == old(users.rows)
        else r == Success(Updated) && users.rows == Replace(old(users.rows), merged)
    {
      if dto.idUser != userId {
        return Failure(Unauthorized(CannotUpdateOtherUser));
      }
      var found := FindById(users.rows, userId);
      if found.None? {
        return Failure(Unauthorized(UserNotFound));
      }
      var user := found.value;
      user := user.(firstName := dto.firstName.GetOr(user.firstName));
      user := user.(lastName := dto.lastName.GetOr(user.lastName));
      user := user.(email := dto.email.GetOr(user.email));
      user := user.(nationalId := dto.nationalId.GetOr(user.nationalId));
      user := user.(phoneNumber := if dto.phoneNumber.Some? then dto.phoneNumber else user.phoneNumber);
      var saved := users.Save(user);
      if saved.Failure? {
        return Failure(saved.error);
      }
      r := Success(Updated);
    }

    /** `changePassword(userId, dto)`: guarded by the current password. */
    method ChangePassword(userId: string, dto: ChangePasswordDto, now: int) returns (r: Result<Ack, Error>)
      requires users.Valid()
      modifies users
      ensures users.Valid()
      ensures FindById(old(users.rows), userId).None? ==>
        r == Failure(Unauthorized(UserNotFound)) && users.rows == old(users.rows)
      ensures FindById(old(users.rows), userId).Some? ==>
        var u := FindById(old(users.rows), userId).value;
        if !compare(dto.oldPassword, u.password)
        then r == Failure(Unauthorized(WrongCurrentPassword)) && users.rows == old(users.rows)
        else r == Success(PasswordChanged)
             && users.rows == Replace(old(users.rows), WithPassword(u, hashPassword(dto.newPassword), now))
    {
      var found := FindById(users.rows, userId);
      if found.None? {
        return Failure(Unauthorized(UserNotFound));
      }
      var user := found.value;
      if !compare(dto.oldPassword, user.password) {
        return Failure(Unauthorized(WrongCurrentPassword));
      }
      var hashed := hashPassword(dto.newPassword);
      user := user.(password := hashed);
      user := user.(updatedAt := now);
      SameKeysNeverCollide(users.rows, FindById(users.rows, userId).value, user);
      var saved := users.Save(user);
      r := Success(PasswordChanged);
    }

    /**
     * `deleteUser(userId, dto)`: soft-deletes the row named in the request.
     * The caller must exist but need not be the target.
     */
    method DeleteUser(userId: string, dto: DeleteDto, now: int) returns (r: Result<Ack, Error>)
      requires users.Valid()
      modifies users
      ensures users.Valid()
      ensures FindById(old(users.rows), userId).None? || FindById(old(users.rows), dto.idUser).None? ==>
        r == Failure(Unauthorized(UserNotFound)) && users.rows == old(users.rows)
      ensures FindById(old(users.rows), userId).Some? && FindById(old(users.rows), dto.idUser).Some? ==>
        r == Success(Deactivated)
        && users.rows == Replace(old(users.rows), Deactivate(FindById(old(users.rows), dto.idUser).value, now))
    {
      var caller := FindById(users.rows, userId);
      if caller.None? {
        return Failure(Unauthorized(UserNotFound));
      }
      var target := FindById(users.rows, dto.idUser);
      if target.None? {
        return Failure(Unauthorized(UserNotFound));
      }
      var userToDelete := target.value;
      userToDelete := userToDelete.(deletedAt := Some(now));
      userToDelete := userToDelete.(updatedAt := now);
      userToDelete := userToDelete.(isActive := false);
      SameKeysNeverCollide(users.rows, FindById(users.rows, dto.idUser).value, userToDelete);
      var saved := users.Save(userToDelete);
      r := Success(Deactivated);
    }
  }
}
