/**
  The JWT login demo's controller logic: the two hard-coded credential pairs,
  the user record derived from a user name, the claims put into the token,
  and the choice between success and failure in `Login` and `Register`.
  Signing the token and its expiry time are not part of this model.
*/
module Auth {
  import opened DotNet
  import opened ActionResults

  /** The request body of both endpoints; either field may be null. */
  datatype LoginModel = LoginModel(username: NullableString, password: NullableString)

  datatype User = User(id: int, username: string, email: string, role: string)

  datatype Claim = Claim(claimType: string, value: string)

  /** The body of a successful login; the token is represented by the claims it carries. */
  datatype LoginBody = LoginBody(token: seq<Claim>, user: User)

  // `ClaimTypes.Name`, `ClaimTypes.Email` and `ClaimTypes.Role`, and the custom user-id claim.
  const NameClaimType := "http://schemas.xmlsoap.org/ws/2005/05/identity/claims/name"
  const EmailClaimType := "http://schemas.xmlsoap.org/ws/2005/05/identity/claims/emailaddress"
  const RoleClaimType := "http://schemas.microsoft.com/ws/2008/06/identity/claims/role"
  const UserIdClaimType := "UserId"

  const EmailDomain := "@example.com"

  /** `IsValidUser`: both fields present and non-empty, and the pair is one of the two known ones. */
  function IsValidUser(model: LoginModel): (valid: bool)
    ensures valid <==> model.password == Some("password")
                       && (model.username == Some("admin") || model.username == Some("user"))
  {
    && !IsNullOrEmpty(model.username)
    && !IsNullOrEmpty(model.password)
    && ((model.username == Some("admin") && model.password == Some("password"))
        || (model.username == Some("user") && model.password == Some("password")))
  }

  /** `GetUserInfo`: "admin" is user 1 with role Admin, every other name is user 2 with role User;
      the e-mail address is the name at example.com. */
  function GetUserInfo(username: string): (u: User)
    ensures u.username == username
    ensures u.email == username + EmailDomain
    ensures u.id == 1 <==> username == "admin"
    ensures u.id == 1 || u.id == 2
    ensures u.role == "Admin" <==> u.id == 1
    ensures u.role == "Admin" || u.role == "User"
  {
    User(
      if username == "admin" then 1 else 2,
      username,
      username + EmailDomain,
      if username == "admin" then "Admin" else "User")
  }

  /** The claims `GenerateJwtToken` signs: name, e-mail, role and user id, in that order. */
  function TokenClaims(username: string): (claims: seq<Claim>)
    ensures |claims| == 4
    ensures claims[0].claimType == NameClaimType && claims[1].claimType == EmailClaimType
    ensures claims[2].claimType == RoleClaimType && claims[3].claimType == UserIdClaimType
  {
    var user := GetUserInfo(username);
    [ Claim(NameClaimType, username),
      Claim(EmailClaimType, user.email),
      Claim(RoleClaimType, user.role),
      Claim(UserIdClaimType, IntToString(user.id)) ]
  }

  /** What a consumer of the token reads back from its claims. */
  function UserFromClaims(claims: seq<Claim>): Option<User>
  {
    if && |claims| == 4
       && claims[0].claimType == NameClaimType
       && claims[1].claimType == EmailClaimType
       && claims[2].claimType == RoleClaimType
       && claims[3].claimType == UserIdClaimType
       && ParseInt(claims[3].value).Some?
    then Some(User(ParseInt(claims[3].value).value, claims[0].value, claims[1].value, claims[2].value))
    else None
  }

  /** `Login`: the token and the user record for a valid pair; `Unauthorized` otherwise. */
  function Login(model: LoginModel): (r: Response<LoginBody>)
    ensures r.Ok? || r.Unauthorized?
    ensures r.Unauthorized? <==> !IsValidUser(model)
    ensures r.Unauthorized? ==> r.message == "Invalid username or password"
    ensures r.Ok? ==> model.username.Some?
                      && r.body.user == GetUserInfo(model.username.value)
                      && r.body.token == TokenClaims(model.username.value)
  {
    if IsValidUser(model) then
      var username := model.username.value;
      Ok(LoginBody(TokenClaims(username), GetUserInfo(username)))
    else
      Unauthorized("Invalid username or password")
  }

  /** `Register`: rejects a null or empty field and otherwise acknowledges; nothing is stored. */
  function Register(model: LoginModel): (r: Response<string>)
    ensures r.Ok? || r.BadRequest?
    ensures r.BadRequest? <==> IsNullOrEmpty(model.username) || IsNullOrEmpty(model.password)
    ensures r.BadRequest? ==> r.message == "Username and password are required"
    ensures r.Ok? ==> r.body == "User registered successfully"
  {
    if IsNullOrEmpty(model.username) || IsNullOrEmpty(model.password) then
      BadRequest("Username and password are required")
    else
      Ok("User registered successfully")
  }

  // ---------------------------------------------------------------------------
  // Properties
  // ---------------------------------------------------------------------------

  /** A null or empty field is never a valid login. */
  lemma EmptyFieldsNeverValid(model: LoginModel)
    ensures IsNullOrEmpty(model.username) || IsNullOrEmpty(model.password) ==> !IsValidUser(model)
  {
  }

  /** The token's claims carry the whole user record: reading them back gives `GetUserInfo`. */
  lemma ClaimsDescribeUser(username: string)
    ensures UserFromClaims(TokenClaims(username)) == Some(GetUserInfo(username))
  {
    var user := GetUserInfo(username);
    ParseIntToString(user.id);
  }

  /** The e-mail address determines the user name, so distinct users get distinct addresses. */
  lemma EmailIdentifiesUser(a: string, b: string)
    ensures GetUserInfo(a).email == GetUserInfo(b).email ==> a == b
  {
    if GetUserInfo(a).email == GetUserInfo(b).email {
      var ea, eb := a + EmailDomain, b + EmailDomain;
      assert |a| == |b|;
      assert a == ea[..|a|] && b == eb[..|b|];
    }
  }

  /** admin logs in as user 1 with role Admin, and the token's UserId claim is "1". */
  lemma LoginAsAdmin()
    ensures var r := Login(LoginModel(Some("admin"), Some("password")));
            r.Ok? && r.body.user == User(1, "admin", "admin@example.com", "Admin")
            && r.body.token[3].value == "1"
  {
    assert IsValidUser(LoginModel(Some("admin"), Some("password")));
  }

  /** user logs in as user 2 with role User, and the token's UserId claim is "2". */
  lemma LoginAsUser()
    ensures var r := Login(LoginModel(Some("user"), Some("password")));
            r.Ok? && r.body.user == User(2, "user", "user@example.com", "User")
            && r.body.token[3].value == "2"
  {
    assert IsValidUser(LoginModel(Some("user"), Some("password")));
  }

  /** A wrong password or a null user name is refused. */
  lemma LoginRejected()
    ensures Login(LoginModel(Some("admin"), Some("wrong"))).Unauthorized?
    ensures Login(LoginModel(None, Some("password"))).Unauthorized?
  {
  }

  /** White space counts as content for the `Register` action: it accepts a blank name and
      password (model validation in front of the action is not part of this model). */
  lemma RegisterAcceptsWhiteSpace()
    ensures Register(LoginModel(Some(" "), Some("\t"))).Ok?
    ensures Register(LoginModel(Some(""), Some("password"))).BadRequest?
    ensures Register(LoginModel(Some("admin"), None)).BadRequest?
  {
  }

  /** Registering stores nothing: a newly registered account still cannot log in. */
  lemma RegisterStoresNothing(model: LoginModel)
    requires Register(model).Ok?
    requires model.username != Some("admin") && model.username != Some("user")
    ensures Login(model).Unauthorized?
  {
  }
}
