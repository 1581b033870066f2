/**
 * app/api/auth/login/route.ts: the POST handler that signs a user in. It only reads the
 * users collection, so it is a function of that collection's contents.
 */
module LoginRoute {
  import opened Wrappers
  import opened Json
  import opened Arrays
  import opened Types
  import opened SignupRoute

  /** The fields read from the request body; "" stands for a missing field. */
  datatype LoginBody = LoginBody(email: string, password: string)

  const CredentialsRequired := Response(400, Error("Email and password are required"))
  const InvalidCredentials := Response(401, Error("Invalid email or password"))

  /**
   * The stored password hash as comparePassword receives it: None when the user record
   * has no `password` field or a non-string one, which bcrypt rejects by throwing.
   */
  function StoredHash(u: Record): (h: Option<string>)
    ensures h.Some? <==> "password" in u && u["password"].Str?
    ensures h.Some? ==> u["password"] == Str(h.value)
  {
    match Get(u, "password")
    case Some(Str(hash)) => Some(hash)
    case _ => None
  }

  /**
   * `POST`. `body` is None when the request body cannot be parsed or is `null` (both
   * throw, so the handler answers 500); a body that parses to an array, a string, a
   * number or a boolean has no fields and is `Some(LoginBody("", ""))`. `compare` stands
   * for comparePassword on a string hash, and `sign` for generateToken.
   */
  function Login(users: seq<Record>, body: Option<LoginBody>,
                 compare: (string, string) -> bool, sign: Record -> string): (r: Response)
    ensures body.None? ==> r == InternalError
    ensures body.Some? && (body.value.email == "" || body.value.password == "") ==> r == CredentialsRequired
    ensures r.status == 200 <==>
      && body.Some? && body.value.email != "" && body.value.password != ""
      && Find(users, HasEmail(body.value.email)).Some?
      && StoredHash(Find(users, HasEmail(body.value.email)).value).Some?
      && compare(body.value.password, StoredHash(Find(users, HasEmail(body.value.email)).value).value)
    ensures r.status == 200 ==>
      var u := Find(users, HasEmail(body.value.email)).value;
      r.body == Auth(sign(TokenPayload(u)), PublicUser(u))
    ensures r.status == 500 <==>
      || body.None?
      || (&& body.value.email != "" && body.value.password != ""
          && Find(users, HasEmail(body.value.email)).Some?
          && StoredHash(Find(users, HasEmail(body.value.email)).value).None?)
    ensures r.status in {200, 400, 401, 500}
  {
    if body.None? then InternalError
    else
      var b := body.value;
      if b.email == "" || b.password == "" then CredentialsRequired
      else
        match Find(users, HasEmail(b.email))
        case None => InvalidCredentials
        case Some(user) =>
          match StoredHash(user)
          case None => InternalError
          case Some(hash) =>
            if !compare(b.password, hash) then InvalidCredentials
            else Response(200, Auth(sign(TokenPayload(user)), PublicUser(user)))
  }

  /**
   * An unknown email and a wrong password give the same response, so a caller cannot
   * tell which one failed.
   */
  lemma FailuresIndistinguishable(users: seq<Record>, email: string, password: string,
                                  compare: (string, string) -> bool, sign: Record -> string)
    requires email != "" && password != ""
    requires || Find(users, HasEmail(email)).None?
             || (&& StoredHash(Find(users, HasEmail(email)).value).Some?
                 && !compare(password, StoredHash(Find(users, HasEmail(email)).value).value))
    ensures Login(users, Some(LoginBody(email, password)), compare, sign) == InvalidCredentials
  {
  }

  /**
   * Only the first user with the email is considered: a later record with the same
   * email and a matching password does not let a login through.
   */
  lemma {:induction false} FirstMatchDecides(first: Record, later: seq<Record>, email: string, password: string,
                                            compare: (string, string) -> bool, sign: Record -> string)
    requires email != "" && password != ""
    requires HasEmail(email)(first)
    ensures Login([first] + later, Some(LoginBody(email, password)), compare, sign)
         == match StoredHash(first)
            case None => InternalError
            case Some(hash) =>
              if compare(password, hash) then Response(200, Auth(sign(TokenPayload(first)), PublicUser(first)))
              else InvalidCredentials
  {
    assert ([first] + later)[0] == first;
  }

  /** A successful login answers with the matching user's id and email in the token payload. */
  lemma SuccessNamesTheUser(users: seq<Record>, b: LoginBody,
                            compare: (string, string) -> bool, sign: Record -> string)
    requires Login(users, Some(b), compare, sign).status == 200
    ensures exists i | 0 <= i < |users| ::
      && Get(users[i], "email") == Some(Str(b.email))
      && Login(users, Some(b), compare, sign).body
         == Auth(sign(TokenPayload(users[i])), PublicUser(users[i]))
  {
    var u := Find(users, HasEmail(b.email)).value;
    var i :| 0 <= i < |users| && users[i] == u && forall j | 0 <= j < i :: !HasEmail(b.email)(users[j]);
    assert HasEmail(b.email)(users[i]);
  }
}
