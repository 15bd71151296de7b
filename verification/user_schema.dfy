/** The user document: the role enumeration, the defaults of a new user,
    the lowercase unique email and the sparse unique phone. */
module UserSchema {
  import opened Base
  import Text

  datatype Role = Admin | Organizer | RegularUser

  function RoleName(r: Role): string {
    match r
    case Admin => "admin"
    case Organizer => "organizer"
    case RegularUser => "user"
  }

  /** The role enum validator. */
  function ParseRole(s: string): (r: Option<Role>)
    ensures r.Some? ==> RoleName(r.value) == s
    ensures r.None? ==> forall x: Role :: RoleName(x) != s
  {
    if s == "admin" then Some(Admin)
    else if s == "organizer" then Some(Organizer)
    else if s == "user" then Some(RegularUser)
    else None
  }

  /** `passwordHash` is the bcrypt hash; `token` the last issued session token. */
  datatype User = User(
    id: Id, name: Option<string>, email: string, emailVerified: bool,
    phone: Option<string>, phoneVerified: bool, profileImage: string,
    passwordHash: string, role: Role, token: Option<string>, isActive: bool)

  /** `new User(...)` then `save()`: the email is stored lower-cased, an absent
      role is "user", and validation fails (None) on an empty email or a role
      outside the enum. `name` and `password` are declared with the misspelt
      option `require`, so nothing demands them. */
  function NewUser(id: Id, name: Option<string>, email: string, passwordHash: string,
                   role: Option<string>, emailVerified: bool): (r: Option<User>)
    ensures r.Some? <==> email != "" && (role.None? || ParseRole(role.value).Some?)
    ensures r.Some? ==>
      var u := r.value;
      && u.id == id && u.name == name && u.email == Text.Lower(email)
      && u.emailVerified == emailVerified && u.passwordHash == passwordHash
      && u.role == (if role.None? then RegularUser else ParseRole(role.value).value)
      && u.phone.None? && !u.phoneVerified && u.profileImage == "" && u.token.None? && u.isActive
  {
    var parsed := if role.None? then Some(RegularUser) else ParseRole(role.value);
    if email == "" || parsed.None? then None
    else Some(User(id, name, Text.Lower(email), emailVerified, None, false, "",
                   passwordHash, parsed.value, None, true))
  }

  /** The `unique` index on `email`. */
  predicate UniqueEmails(us: seq<User>) {
    forall i, j :: 0 <= i < j < |us| ==> us[i].email != us[j].email
  }

  /** The `unique, sparse` index on `phone`: only present phones must differ. */
  predicate SparseUniquePhones(us: seq<User>) {
    forall i, j :: 0 <= i < j < |us| && us[i].phone.Some? && us[j].phone.Some? ==>
      us[i].phone.value != us[j].phone.value
  }

  /** The `lowercase` option on `email`. */
  predicate LowercaseEmails(us: seq<User>) {
    forall i :: 0 <= i < |us| ==> us[i].email == Text.Lower(us[i].email)
  }
}
