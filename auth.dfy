/**
 * The `POST /login` handler without its timer and file read. The parsed
 * users file comes in as `users` (`None` when reading or `JSON.parse`
 * fails). `comparePassword` and `jwt.sign` are parameters: the first
 * answers `None` when it throws, the second turns the token payload into
 * the token string.
 */
module Auth {
  import opened Wrappers
  import opened JsonValue
  import opened Http

  const MaxFieldLength := 100

  const InvalidBody := ErrorReply(400, "Invalid request body")
  const MissingCredentials := ErrorReply(400, "Username and password are required")
  const NotStrings := ErrorReply(400, "Username and password must be strings")
  const TooLong := ErrorReply(400, "Input size exceeds limit")
  const InvalidCredentials := ErrorReply(401, "Invalid credentials")

  datatype Credentials = Credentials(username: string, password: string)

  /** What goes into the token: the matched user's `id` (absent when the
      record has none) and `username`. */
  datatype TokenPayload = TokenPayload(id: Option<Json>, username: string)

  datatype LoginResult = LoginResult(reply: Reply, issued: Option<TokenPayload>)

  /** `!v` for a property that may be `undefined`. */
  predicate Present(v: Option<Json>) {
    v.Some? && Truthy(v.value)
  }

  /** A field the body checks accept: a non-empty string of at most 100 characters. */
  predicate Acceptable(v: Option<Json>) {
    v.Some? && v.value.JStr? && 0 < |v.value.s| <= MaxFieldLength
  }

  /** The body checks, in source order. */
  function ValidateBody(body: Option<Json>): (r: Result<Credentials, Reply>)
    ensures r.Ok? <==> body.Some? && body.value.JObj?
                       && Acceptable(Property(body.value, "username"))
                       && Acceptable(Property(body.value, "password"))
    ensures r.Ok? ==> Property(body.value, "username") == Some(JStr(r.value.username))
                      && Property(body.value, "password") == Some(JStr(r.value.password))
    ensures r.Err? ==> r.error in {InvalidBody, MissingCredentials, NotStrings, TooLong}
  {
    if body.None? || !Truthy(body.value) || !(body.value.JObj? || body.value.JArr?) then
      Err(InvalidBody)
    else
      var username := Property(body.value, "username");
      var password := Property(body.value, "password");
      if !Present(username) || !Present(password) then Err(MissingCredentials)
      else if !username.value.JStr? || !password.value.JStr? then Err(NotStrings)
      else if |username.value.s| > MaxFieldLength || |password.value.s| > MaxFieldLength then Err(TooLong)
      else Ok(Credentials(username.value.s, password.value.s))
  }

  /** `u.username === username`. */
  function UsernameIs(name: string): (r: Json -> bool)
    ensures forall u :: r(u) ==> u.JObj? && Member("username", JStr(name)) in u.members
  {
    u => Property(u, "username") == Some(JStr(name))
  }

  /** `POST /login`. */
  function Login(body: Option<Json>, users: Option<Json>,
                 comparePassword: (string, Option<Json>) -> Option<bool>,
                 sign: TokenPayload -> string): (r: LoginResult)
    ensures r.reply.status in {200, 400, 401, 500}
    ensures r.issued.Some? <==> r.reply.status == 200
    ensures r.reply.status == 401 ==> r.reply == InvalidCredentials
    ensures r.reply.status == 400 <==> ValidateBody(body).Err?
    ensures ValidateBody(body).Err? ==> r.reply == ValidateBody(body).error
    ensures r.issued.Some? ==>
              var creds := ValidateBody(body).value;
              && users.Some? && users.value.JArr?
              && exists i :: && FirstMatch(users.value.items, UsernameIs(creds.username), i)
                             && comparePassword(creds.password, Property(users.value.items[i], "passwordHash")) == Some(true)
                             && r.issued.value == TokenPayload(Property(users.value.items[i], "id"), creds.username)
    ensures r.issued.Some? ==> r.reply == OkReply("Login successful", "token", JStr(sign(r.issued.value)))
  {
    match ValidateBody(body)
    case Err(reply) => LoginResult(reply, None)
    case Ok(creds) =>
      if users.None? || !users.value.JArr? then LoginResult(InternalError, None)
      else
        var list := users.value.items;
        match FindFirst(list, UsernameIs(creds.username))
        case Crash => LoginResult(InternalError, None)
        case Missing => LoginResult(InvalidCredentials, None)
        case Found(i) =>
          var user := list[i];
          match comparePassword(creds.password, Property(user, "passwordHash"))
          case None => LoginResult(InternalError, None)
          case Some(false) => LoginResult(InvalidCredentials, None)
          case Some(true) =>
            var payload := TokenPayload(Property(user, "id"), creds.username);
            LoginResult(OkReply("Login successful", "token", JStr(sign(payload))), Some(payload))
  }

  /** The users file is read only after the body checks pass: a body they
      reject gets the same answer whatever the users file holds. */
  lemma {:induction false} BodyChecksPrecedeStore(body: Option<Json>,
                               users1: Option<Json>, compare1: (string, Option<Json>) -> Option<bool>,
                               users2: Option<Json>, compare2: (string, Option<Json>) -> Option<bool>,
                               sign: TokenPayload -> string)
    requires ValidateBody(body).Err?
    ensures Login(body, users1, compare1, sign) == Login(body, users2, compare2, sign)
  {
  }

  /** An unknown user and a wrong password are indistinguishable: same
      status, same body, no token. */
  lemma {:induction false} UnknownUserLooksLikeWrongPassword(body: Option<Json>,
                                          users1: seq<Json>, compare1: (string, Option<Json>) -> Option<bool>,
                                          users2: seq<Json>, compare2: (string, Option<Json>) -> Option<bool>,
                                          sign: TokenPayload -> string)
    requires ValidateBody(body).Ok?
    requires FindFirst(users1, UsernameIs(ValidateBody(body).value.username)).Missing?
    requires var found := FindFirst(users2, UsernameIs(ValidateBody(body).value.username));
             && found.Found?
             && compare2(ValidateBody(body).value.password, Property(users2[found.index], "passwordHash")) == Some(false)
    ensures Login(body, Some(JArr(users1)), compare1, sign) == Login(body, Some(JArr(users2)), compare2, sign)
    ensures Login(body, Some(JArr(users1)), compare1, sign) == LoginResult(InvalidCredentials, None)
  {
  }

  /** The body checks answer in source order: a missing or non-object body,
      then a falsy field, then a non-string field, then an overlong one. */
  lemma {:induction false} ValidateBodyCascade(body: Option<Json>)
    ensures body.None? || !(body.value.JObj? || body.value.JArr?) <==> ValidateBody(body) == Err(InvalidBody)
    ensures body.Some? && (body.value.JObj? || body.value.JArr?) ==>
              var username := Property(body.value, "username");
              var password := Property(body.value, "password");
              && (!Present(username) || !Present(password) <==> ValidateBody(body) == Err(MissingCredentials))
              && (Present(username) && Present(password) && (!username.value.JStr? || !password.value.JStr?)
                  <==> ValidateBody(body) == Err(NotStrings))
              && (Present(username) && Present(password) && username.value.JStr? && password.value.JStr?
                  && (|username.value.s| > MaxFieldLength || |password.value.s| > MaxFieldLength)
                  <==> ValidateBody(body) == Err(TooLong))
  {
  }

  /** Correct credentials log in: when the first user with the name comes
      before any `null` and the password check agrees, a token is issued for
      that user. */
  lemma {:induction false} LoginSucceeds(body: Option<Json>, users: seq<Json>,
                                         comparePassword: (string, Option<Json>) -> Option<bool>,
                                         sign: TokenPayload -> string, i: int)
    requires ValidateBody(body).Ok?
    requires FirstMatch(users, UsernameIs(ValidateBody(body).value.username), i)
    requires comparePassword(ValidateBody(body).value.password, Property(users[i], "passwordHash")) == Some(true)
    ensures var payload := TokenPayload(Property(users[i], "id"), ValidateBody(body).value.username);
            Login(body, Some(JArr(users)), comparePassword, sign)
              == LoginResult(OkReply("Login successful", "token", JStr(sign(payload))), Some(payload))
  {
    FindFirstFinds(users, UsernameIs(ValidateBody(body).value.username), i);
  }

  /** After the body checks pass, 401 comes exactly from an unknown user (no
      user has the name and no `null` is met) or from a password the check
      rejects. */
  lemma {:induction false} LoginUnauthorized(body: Option<Json>, users: Option<Json>,
                                             comparePassword: (string, Option<Json>) -> Option<bool>,
                                             sign: TokenPayload -> string)
    requires ValidateBody(body).Ok?
    ensures var creds := ValidateBody(body).value;
            var named := UsernameIs(creds.username);
            Login(body, users, comparePassword, sign).reply.status == 401 <==>
              && users.Some? && users.value.JArr?
              && (|| PassesOver(users.value.items, named, |users.value.items|)
                  || exists i :: && FirstMatch(users.value.items, named, i)
                                 && comparePassword(creds.password, Property(users.value.items[i], "passwordHash")) == Some(false))
  {
    var creds := ValidateBody(body).value;
    var named := UsernameIs(creds.username);
    if users.Some? && users.value.JArr? {
      var us := users.value.items;
      if exists i :: FirstMatch(us, named, i) {
        var i :| FirstMatch(us, named, i);
        FindFirstFinds(us, named, i);
      }
    }
  }

  /** After the body checks pass, 500 comes exactly from a missing or
      non-array users file, a `null` met before the user, or a password check
      that throws. */
  lemma {:induction false} LoginServerError(body: Option<Json>, users: Option<Json>,
                                            comparePassword: (string, Option<Json>) -> Option<bool>,
                                            sign: TokenPayload -> string)
    requires ValidateBody(body).Ok?
    ensures var creds := ValidateBody(body).value;
            var named := UsernameIs(creds.username);
            Login(body, users, comparePassword, sign).reply.status == 500 <==>
              || users.None? || !users.value.JArr?
              || (exists i :: FirstNull(users.value.items, named, i))
              || exists i :: && FirstMatch(users.value.items, named, i)
                             && comparePassword(creds.password, Property(users.value.items[i], "passwordHash")) == None
  {
    var creds := ValidateBody(body).value;
    var named := UsernameIs(creds.username);
    if users.Some? && users.value.JArr? {
      var us := users.value.items;
      if exists i :: FirstMatch(us, named, i) {
        var i :| FirstMatch(us, named, i);
        FindFirstFinds(us, named, i);
      }
      if exists i :: FirstNull(us, named, i) {
        var i :| FirstNull(us, named, i);
        FindFirstCrashes(us, named, i);
      }
    }
  }

  /** The length limit is inclusive: 100 characters pass, 101 do not. */
  lemma {:induction false} LengthLimitInclusive(name: string, password: string)
    requires |name| == MaxFieldLength && 0 < |password| <= MaxFieldLength
    ensures ValidateBody(Some(JObj([Member("username", JStr(name)), Member("password", JStr(password))]))).Ok?
    ensures ValidateBody(Some(JObj([Member("username", JStr(name + "x")), Member("password", JStr(password))])))
              == Err(TooLong)
  {
    var b := JObj([Member("username", JStr(name)), Member("password", JStr(password))]);
    assert "username" != "password" by { assert "username"[0] != "password"[0]; }
    assert b.members[1..] == [Member("password", JStr(password))];
    assert Lookup(b.members, "password") == Lookup(b.members[1..], "password");
    assert Property(b, "username") == Some(JStr(name));
    assert Property(b, "password") == Some(JStr(password));
    var longer := name + "x";
    assert |longer| == MaxFieldLength + 1;
  }
}
