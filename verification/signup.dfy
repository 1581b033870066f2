/**
 * app/api/auth/signup/route.ts: the POST handler that registers a user. A pure chain of
 * early-return checks decides the response; only a request that passes all of them
 * appends one user to the users collection.
 */
module SignupRoute {
  import opened Wrappers
  import opened Json
  import opened Strings
  import opened Utils
  import opened Storage
  import opened Types

  /** The fields read from the request body; "" stands for a missing field. */
  datatype SignupBody = SignupBody(email: string, password: string, name: string, phone: string)

  const AllFieldsRequired := Response(400, Error("All fields are required"))
  const InvalidEmailFormat := Response(400, Error("Invalid email format"))
  const InvalidPhoneNumber := Response(400, Error("Invalid phone number"))
  const PasswordTooShort := Response(400, Error("Password must be at least 6 characters"))
  const UserExists := Response(409, Error("User with this email already exists"))

  /** Whether a stored user record has the email `email` (`u.email === email`). */
  function HasEmail(email: string): Record -> bool
  {
    u => Get(u, "email") == Some(Str(email))
  }

  /** Whether some stored user already has the email `email`. */
  predicate EmailTaken(users: seq<Record>, email: string)
  {
    exists i | 0 <= i < |users| :: HasEmail(email)(users[i])
  }

  /**
   * The validation checks in their order: presence of all four fields, email format,
   * phone format, password length. The first failing check decides the response.
   */
  function Validate(b: SignupBody): (r: Option<Response>)
    ensures r.Some? ==> r.value.status == 400
    ensures (b.email == "" || b.password == "" || b.name == "" || b.phone == "") ==>
      r == Some(AllFieldsRequired)
    ensures r.None? <==>
      && b.email != "" && b.password != "" && b.name != "" && b.phone != ""
      && IsValidEmail(b.email) && IsValidPhone(b.phone) && |b.password| >= 6
  {
    if b.email == "" || b.password == "" || b.name == "" || b.phone == "" then Some(AllFieldsRequired)
    else if !IsValidEmail(b.email) then Some(InvalidEmailFormat)
    else if !IsValidPhone(b.phone) then Some(InvalidPhoneNumber)
    else if |b.password| < 6 then Some(PasswordTooShort)
    else None
  }

  /** A well-formed email is checked before the phone, and the phone before the password. */
  lemma ValidationOrder(b: SignupBody)
    requires b.email != "" && b.password != "" && b.name != "" && b.phone != ""
    ensures !IsValidEmail(b.email) ==> Validate(b) == Some(InvalidEmailFormat)
    ensures IsValidEmail(b.email) && !IsValidPhone(b.phone) ==> Validate(b) == Some(InvalidPhoneNumber)
    ensures IsValidEmail(b.email) && IsValidPhone(b.phone) && |b.password| < 6 ==>
      Validate(b) == Some(PasswordTooShort)
  {
  }

  /** The user record `{ id, email, password: hashed, name, phone, createdAt }`. */
  function NewUser(b: SignupBody, hash: string -> string, id: string, now: string): (u: Record)
    ensures u.Keys == {"id", "email", "password", "name", "phone", "createdAt"}
    ensures u["email"] == Str(b.email) && u["password"] == Str(hash(b.password))
    ensures u["id"] == Str(id) && u["name"] == Str(b.name) && u["phone"] == Str(b.phone)
  {
    map["id" := Str(id), "email" := Str(b.email), "password" := Str(hash(b.password)),
        "name" := Str(b.name), "phone" := Str(b.phone), "createdAt" := Str(now)]
  }

  /** No two stored users share an email. */
  predicate EmailsDistinct(users: seq<Record>)
  {
    forall i, j | 0 <= i < j < |users| && "email" in users[i] && "email" in users[j] ::
      users[i]["email"] != users[j]["email"]
  }

  /** Appending a user whose email nobody has keeps the emails distinct. */
  lemma {:induction false} AppendKeepsEmailsDistinct(users: seq<Record>, u: Record, email: string)
    requires EmailsDistinct(users)
    requires Get(u, "email") == Some(Str(email))
    requires !EmailTaken(users, email)
    ensures EmailsDistinct(users + [u])
  {
    var all := users + [u];
    forall i, j | 0 <= i < j < |all| && "email" in all[i] && "email" in all[j]
      ensures all[i]["email"] != all[j]["email"]
    {
      if j == |users| {
        assert !HasEmail(email)(users[i]);
      } else {
        assert all[i] == users[i] && all[j] == users[j];
      }
    }
  }

  /**
   * `POST`. `body` is None when the request body cannot be parsed or is `null` (both
   * throw, so the handler answers 500); a body that parses to an array, a string, a
   * number or a boolean has no fields and is `Some(SignupBody("", "", "", ""))`.
   * `hash`, `sign`, `id` and `now` stand for hashPassword, generateToken, generateId
   * and the clock.
   */
  method Post(store: Collections, body: Option<SignupBody>, hash: string -> string,
              sign: Record -> string, id: string, now: string) returns (res: Response)
    requires store.Valid()
    modifies store.users
    ensures unchanged(store.cases, store.updates, store.admins, store.config)
    ensures body.None? ==> res == InternalError && unchanged(store.users)
    ensures body.Some? && Validate(body.value).Some? ==>
      res == Validate(body.value).value && unchanged(store.users)
    ensures body.Some? && Validate(body.value).None? && EmailTaken(old(store.users.Contents()), body.value.email) ==>
      res == UserExists && unchanged(store.users)
    ensures body.Some? && Validate(body.value).None? && !EmailTaken(old(store.users.Contents()), body.value.email) ==>
      var u := NewUser(body.value, hash, id, now);
      && store.users.file == Some(old(store.users.Contents()) + [u])
      && res == Response(201, Auth(sign(TokenPayload(u)), PublicUser(u)))
    ensures EmailsDistinct(old(store.users.Contents())) ==> EmailsDistinct(store.users.Contents())
  {
    if body.None? {
      return InternalError;
    }
    var b := body.value;
    var invalid := Validate(b);
    if invalid.Some? {
      return invalid.value;
    }
    var existing := store.users.FindOne(HasEmail(b.email));
    if existing.Some? {
      return UserExists;
    }
    assert !EmailTaken(store.users.Contents(), b.email);
    ghost var before := store.users.Contents();
    var user := store.users.Create(NewUser(b, hash, id, now));
    if EmailsDistinct(before) {
      AppendKeepsEmailsDistinct(before, user, b.email);
    }
    res := Response(201, Auth(sign(TokenPayload(user)), PublicUser(user)));
  }

  // ---------------------------------------------------------------- emails that are not strings

  /** The decimal text of a digit. */
  function DigitText(d: nat): (c: char)
    requires d < 10
    ensures '0' <= c <= '9'
  {
    "0123456789"[d]
  }

  /** `String(n)` for an integer: its decimal digits, with '-' in front when negative. */
  function DecimalText(n: int): (t: string)
    ensures t != []
    ensures n >= 0 <==> t[0] != '-'
    decreases if n < 0 then 1 - n else n
  {
    if n < 0 then "-" + DecimalText(-n)
    else if n < 10 then [DigitText(n)]
    else DecimalText(n / 10) + [DigitText(n % 10)]
  }

  /**
   * The text `isValidEmail` tests for an email value: `RegExp.test` converts its argument
   * with `String(...)`. An array converts to its elements joined by ',', where `null`
   * elements are empty and every other element is converted the same way.
   */
  function TestedText(email: Value): (t: string)
    ensures email.Str? ==> t == email.s
    ensures email.Arr? && email.items == [] ==> t == ""
  {
    match email
    case Null => "null"
    case Bool(b) => if b then "true" else "false"
    case Num(n) => DecimalText(n)
    case Str(s) => s
    case Arr(items) =>
      Join(seq(|items|, i requires 0 <= i < |items| =>
        if items[i].Null? then "" else TestedText(items[i])), ',')
    case Obj(_) => "[object Object]"
  }

  /**
   * Arrays are tested as the ',' join of their elements' texts: a one-string array as the
   * string, a nested one the same way, and further elements after a ','.
   */
  lemma ArrayTexts(s: string, t: string)
    ensures TestedText(Arr([Str(s)])) == s
    ensures TestedText(Arr([Arr([Str(s)])])) == s
    ensures TestedText(Arr([Str(s), Str(t)])) == s + "," + t
    ensures TestedText(Arr([Str(s), Null])) == s + ","
  {
    assert Join([s], ',') == s;
    PairText([Str(s), Str(t)], s, t);
    PairText([Str(s), Null], s, "");
  }

  /** A two-element array is tested as the texts of its elements around a ','. */
  lemma PairText(items: seq<Value>, s: string, t: string)
    requires |items| == 2
    requires (if items[0].Null? then "" else TestedText(items[0])) == s
    requires (if items[1].Null? then "" else TestedText(items[1])) == t
    ensures TestedText(Arr(items)) == s + "," + t
  {
    var pieces := seq(|items|, i requires 0 <= i < |items| =>
      if items[i].Null? then "" else TestedText(items[i]));
    assert pieces == [s, t];
    assert Join([s, t], ',') == s + [','] + Join([t], ',');
  }

  /**
   * The users collection after signup as written, with the email sent as any JSON value
   * and the other fields as in `b`: the email must be truthy and pass validation through
   * the text it is tested as, and the duplicate check uses strict equality. For a string
   * email this is what `Post` stores; an array or object email is never found taken.
   */
  function SignupAsWritten(users: seq<Record>, email: Value, b: SignupBody,
                           hash: string -> string, id: string, now: string): (r: seq<Record>)
    ensures r == users || r == users + [NewUser(b, hash, id, now)["email" := email]]
    ensures (email.Arr? || email.Obj?) && Validate(b.(email := TestedText(email))).None? ==>
      r == users + [NewUser(b, hash, id, now)["email" := email]]
    ensures email.Str? ==>
      (r == users <==> Validate(b.(email := email.s)).Some? || EmailTaken(users, email.s))
  {
    if && Truthy(Some(email))
       && Validate(b.(email := TestedText(email))).None?
       && !(exists i | 0 <= i < |users| :: "email" in users[i] && StrictlyEqual(users[i]["email"], email))
    then users + [NewUser(b, hash, id, now)["email" := email]]
    else users
  }

  /**
   * Sending a valid signup twice with the email wrapped in a one-element array stores
   * two users with the same email.
   */
  lemma ArrayEmailStoredTwice(users: seq<Record>, b: SignupBody, hash: string -> string,
                              id1: string, id2: string, now: string)
    requires Validate(b).None?
    ensures var e := Arr([Str(b.email)]);
      var twice := SignupAsWritten(SignupAsWritten(users, e, b, hash, id1, now), e, b, hash, id2, now);
      |twice| == |users| + 2 && !EmailsDistinct(twice)
  {
    var e := Arr([Str(b.email)]);
    ArrayTexts(b.email, "");
    assert b.(email := b.email) == b;
    var once := SignupAsWritten(users, e, b, hash, id1, now);
    var twice := SignupAsWritten(once, e, b, hash, id2, now);
    var n := |users|;
    assert twice[n] == once[n] && "email" in twice[n] && twice[n]["email"] == e;
    assert "email" in twice[n + 1] && twice[n + 1]["email"] == e;
  }

  /**
   * An email sent as an array of the address and a further string is tested as their
   * ',' join, and is stored when that text is valid.
   */
  lemma ArrayWithExtraElementStored(users: seq<Record>, b: SignupBody, t: string,
                                    hash: string -> string, id: string, now: string)
    requires Validate(b.(email := b.email + "," + t)).None?
    ensures SignupAsWritten(users, Arr([Str(b.email), Str(t)]), b, hash, id, now)
      == users + [NewUser(b, hash, id, now)["email" := Arr([Str(b.email), Str(t)])]]
  {
    ArrayTexts(b.email, t);
  }

  /**
   * Signup as intended: an email that is not a string is rejected, and a string email is
   * checked against the stored ones. For string emails this is what `Post` does.
   */
  function SignupCorrected(users: seq<Record>, email: Value, b: SignupBody,
                           hash: string -> string, id: string, now: string): (r: seq<Record>)
    ensures !email.Str? ==> r == users
    ensures r == users || (email.Str? && r == users + [NewUser(b.(email := email.s), hash, id, now)])
  {
    if email.Str? && Validate(b.(email := email.s)).None? && !EmailTaken(users, email.s)
    then users + [NewUser(b.(email := email.s), hash, id, now)]
    else users
  }

  /** The intended signup keeps emails unique. */
  lemma CorrectedKeepsEmailsDistinct(users: seq<Record>, email: Value, b: SignupBody,
                                     hash: string -> string, id: string, now: string)
    requires EmailsDistinct(users)
    ensures EmailsDistinct(SignupCorrected(users, email, b, hash, id, now))
  {
    if email.Str? && Validate(b.(email := email.s)).None? && !EmailTaken(users, email.s) {
      AppendKeepsEmailsDistinct(users, NewUser(b.(email := email.s), hash, id, now), email.s);
    }
  }

  /** With the intended signup, repeating a request never stores a second user. */
  lemma CorrectedStoresOnce(users: seq<Record>, email: Value, b: SignupBody,
                            hash: string -> string, id1: string, id2: string, now: string)
    ensures var once := SignupCorrected(users, email, b, hash, id1, now);
      SignupCorrected(once, email, b, hash, id2, now) == once
  {
    var once := SignupCorrected(users, email, b, hash, id1, now);
    if once != users {
      var u := NewUser(b.(email := email.s), hash, id1, now);
      assert once[|users|] == u && HasEmail(email.s)(u);
      assert EmailTaken(once, email.s);
    }
  }
}
