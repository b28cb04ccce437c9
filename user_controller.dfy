/**
 * The two profile handlers of the user controller: `updateProfile`, which
 * assigns the fields of the stored user one condition at a time, and
 * `updatePassword`, a sequence of early refusals ending in one assignment.
 * Users are kept by id; the password check (`matchPassword`, a hash
 * comparison) is a parameter.
 */
module UserController {
  import opened Wrappers
  import opened Http
  import Js
  import OrderModel

  type UserId = OrderModel.UserId

  /** The stored user fields the handlers touch; `None` is an unset (null) phone or image. */
  datatype User = User(
    firstName: string,
    lastName: string,
    email: string,
    phone: Option<string>,
    image: Option<string>,
    address: map<string, string>,
    role: string,
    password: string)

  /**
   * The body of a profile update. For `phone` and `image`, the outer `None`
   * is a field the body leaves out (undefined) and `Some(None)` an explicit
   * null. `address` is `None` when it is missing or null.
   */
  datatype ProfileUpdate = ProfileUpdate(
    firstName: Option<string>,
    lastName: Option<string>,
    phone: Option<Option<string>>,
    image: Option<Option<string>>,
    address: Option<map<string, string>>)

  /** `{ ...stored, ...supplied }`: the supplied keys override, the other stored keys stay. */
  function MergeAddress(stored: map<string, string>, supplied: map<string, string>): map<string, string> {
    stored + supplied
  }

  /** The user after the five conditional assignments of `updateProfile`: email, role and password are never touched, and no stored address key is lost. */
  function ApplyProfile(u: User, b: ProfileUpdate): (v: User)
    ensures v.email == u.email && v.role == u.role && v.password == u.password
    ensures forall k :: k in u.address ==> k in v.address
  {
    u.(firstName := if Js.Truthy(b.firstName) then b.firstName.value else u.firstName,
       lastName := if Js.Truthy(b.lastName) then b.lastName.value else u.lastName,
       phone := if b.phone.Some? then b.phone.value else u.phone,
       image := if b.image.Some? then b.image.value else u.image,
       address := if b.address.Some? then MergeAddress(u.address, b.address.value) else u.address)
  }

  /**
   * The rules of the merge: a name is replaced exactly when the new one is
   * truthy; phone and image whenever the body carries them, an empty string
   * or null included; the address key by key; email, role and password never.
   */
  lemma ProfileRules(u: User, b: ProfileUpdate)
    ensures var v := ApplyProfile(u, b);
      && (Js.Truthy(b.firstName) ==> v.firstName == b.firstName.value)
      && (!Js.Truthy(b.firstName) ==> v.firstName == u.firstName)
      && (Js.Truthy(b.lastName) ==> v.lastName == b.lastName.value)
      && (!Js.Truthy(b.lastName) ==> v.lastName == u.lastName)
      && (b.phone == Some(Some("")) ==> v.phone == Some(""))
      && (b.phone.Some? ==> v.phone == b.phone.value)
      && (b.phone.None? ==> v.phone == u.phone)
      && (b.image.Some? ==> v.image == b.image.value)
      && (b.image.None? ==> v.image == u.image)
      && v.email == u.email && v.role == u.role && v.password == u.password
  {
  }

  /** The address merge: every key stored or supplied is present, a supplied value wins, an unsupplied key keeps its stored value. */
  lemma AddressMergeRules(u: User, b: ProfileUpdate)
    requires b.address.Some?
    ensures var v := ApplyProfile(u, b);
      && (forall k :: k in v.address <==> k in u.address || k in b.address.value)
      && (forall k :: k in b.address.value ==> v.address[k] == b.address.value[k])
      && (forall k :: k in u.address && k !in b.address.value ==> v.address[k] == u.address[k])
  {
  }

  /** Sending the same update twice has the effect of sending it once. */
  lemma ProfileIdempotent(u: User, b: ProfileUpdate)
    ensures ApplyProfile(ApplyProfile(u, b), b) == ApplyProfile(u, b)
  {
    var v := ApplyProfile(u, b);
    if b.address.Some? {
      assert MergeAddress(v.address, b.address.value) == v.address;
    }
  }

  /** A body that supplies nothing usable leaves the user as stored. */
  lemma EmptyUpdateChangesNothing(u: User, firstName: Option<string>, lastName: Option<string>)
    requires !Js.Truthy(firstName) && !Js.Truthy(lastName)
    ensures ApplyProfile(u, ProfileUpdate(firstName, lastName, None, None, None)) == u
  {
  }

  const UserNotFound: Failure := Failure(NotFound, "User not found")
  const MissingPasswords: Failure := Failure(BadRequest, "Please provide current password and new password")
  const ShortPassword: Failure := Failure(BadRequest, "New password must be at least 6 characters")
  const WrongPassword: Failure := Failure(Unauthorized, "Current password is incorrect")

  /** `updateProfile` as a function of the stored users. */
  function UpdateProfileOutcome(users: map<UserId, User>, id: UserId, b: ProfileUpdate): (r: (map<UserId, User>, Result<User, Failure>))
    ensures id !in users ==> r == (users, Err(UserNotFound))
    ensures id in users ==> r.1 == Ok(ApplyProfile(users[id], b)) && r.0 == users[id := r.1.value]
  {
    if id !in users then (users, Err(UserNotFound))
    else
      var v := ApplyProfile(users[id], b);
      (users[id := v], Ok(v))
  }

  /**
   * `updatePassword` as a function of the stored users: both passwords are
   * required, the new one needs at least six characters, the user must exist
   * and `matchPassword(candidate, stored)` must accept the current one.
   */
  function UpdatePasswordOutcome(users: map<UserId, User>, id: UserId, currentPassword: Option<string>, newPassword: Option<string>,
                                 matchPassword: (string, string) -> bool): (r: (map<UserId, User>, Result<string, Failure>))
    ensures r.1.Err? ==> r.0 == users
    ensures r.1.Ok? <==> Js.Truthy(currentPassword) && Js.Truthy(newPassword) && |newPassword.value| >= 6 && id in users
                          && matchPassword(currentPassword.value, users[id].password)
  {
    if !Js.Truthy(currentPassword) || !Js.Truthy(newPassword) then (users, Err(MissingPasswords))
    else if |newPassword.value| < 6 then (users, Err(ShortPassword))
    else if id !in users then (users, Err(UserNotFound))
    else if !matchPassword(currentPassword.value, users[id].password) then (users, Err(WrongPassword))
    else (users[id := users[id].(password := newPassword.value)], Ok("Password updated successfully"))
  }

  /** A missing or empty password of either kind is refused with the 400 before anything else is looked at. */
  lemma MissingPasswordRefused(users: map<UserId, User>, id: UserId, currentPassword: Option<string>, newPassword: Option<string>,
                               matchPassword: (string, string) -> bool)
    requires !Js.Truthy(currentPassword) || !Js.Truthy(newPassword)
    ensures UpdatePasswordOutcome(users, id, currentPassword, newPassword, matchPassword) == (users, Err(MissingPasswords))
  {
  }

  /** A new password shorter than six characters is refused with the second 400, whether or not the user exists. */
  lemma ShortPasswordRefused(users: map<UserId, User>, id: UserId, currentPassword: string, newPassword: string,
                             matchPassword: (string, string) -> bool)
    requires currentPassword != "" && newPassword != "" && |newPassword| < 6
    ensures UpdatePasswordOutcome(users, id, Some(currentPassword), Some(newPassword), matchPassword) == (users, Err(ShortPassword))
  {
  }

  /** A wrong current password gives 401 and the stored password stays as it was. */
  lemma WrongPasswordKeepsStored(users: map<UserId, User>, id: UserId, currentPassword: string, newPassword: string,
                                 matchPassword: (string, string) -> bool)
    requires currentPassword != "" && |newPassword| >= 6 && id in users
    requires !matchPassword(currentPassword, users[id].password)
    ensures UpdatePasswordOutcome(users, id, Some(currentPassword), Some(newPassword), matchPassword).1 == Err(WrongPassword)
    ensures UpdatePasswordOutcome(users, id, Some(currentPassword), Some(newPassword), matchPassword).0[id].password == users[id].password
  {
  }

  /** A successful change stores the new password for that user only and touches none of the user's other fields. */
  lemma PasswordChangeIsolated(users: map<UserId, User>, id: UserId, currentPassword: Option<string>, newPassword: Option<string>,
                               matchPassword: (string, string) -> bool)
    requires UpdatePasswordOutcome(users, id, currentPassword, newPassword, matchPassword).1.Ok?
    ensures var after := UpdatePasswordOutcome(users, id, currentPassword, newPassword, matchPassword).0;
      && after.Keys == users.Keys
      && after[id] == users[id].(password := newPassword.value)
      && |after[id].password| >= 6
      && forall other :: other in users && other != id ==> after[other] == users[other]
  {
  }

  /** The users the handlers read and write. */
  class UserStore {
    var users: map<UserId, User>

    constructor (users: map<UserId, User>)
      ensures this.users == users
    {
      this.users := users;
    }

    /** `updateProfile`: look the user up, assign the supplied fields one by one, save. */
    method UpdateProfile(id: UserId, b: ProfileUpdate) returns (r: Result<User, Failure>)
      modifies this
      ensures (users, r) == UpdateProfileOutcome(old(users), id, b)
    {
      if id !in users {
        return Err(UserNotFound);
      }
      var user := users[id];
      if b.firstName.Some? && b.firstName.value != "" {
        user := user.(firstName := b.firstName.value);
      }
      if b.lastName.Some? && b.lastName.value != "" {
        user := user.(lastName := b.lastName.value);
      }
      if b.phone.Some? {
        user := user.(phone := b.phone.value);
      }
      if b.image.Some? {
        user := user.(image := b.image.value);
      }
      if b.address.Some? {
        user := user.(address := user.address + b.address.value);
      }
      users := users[id := user];
      r := Ok(user);
    }

    /** `updatePassword`: four early refusals, then the new password is stored. */
    method UpdatePassword(id: UserId, currentPassword: Option<string>, newPassword: Option<string>, matchPassword: (string, string) -> bool)
      returns (r: Result<string, Failure>)
      modifies this
      ensures (users, r) == UpdatePasswordOutcome(old(users), id, currentPassword, newPassword, matchPassword)
    {
      if currentPassword.None? || currentPassword.value == "" || newPassword.None? || newPassword.value == "" {
        return Err(MissingPasswords);
      }
      if |newPassword.value| < 6 {
        return Err(ShortPassword);
      }
      if id !in users {
        return Err(UserNotFound);
      }
      var user := users[id];
      var isMatch := matchPassword(currentPassword.value, user.password);
      if !isMatch {
        return Err(WrongPassword);
      }
      user := user.(password := newPassword.value);
      users := users[id := user];
      r := Ok("Password updated successfully");
    }
  }
}
