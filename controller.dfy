/** The HTTP controller of src/users/users.controller.ts: it runs the auth
    flow, records the `userId` session cookie on the response, and answers
    with the public view of a user (src/users/dto/user-response.dto.ts). */
module Controller {
  import opened Outcomes
  import opened Credential
  import opened Users
  import opened Auth
  import opened UserDto

  const USER_COOKIE_NAME := "userId"
  /** Fifteen minutes, in milliseconds. */
  const SESSION_MAX_AGE := 1000 * 60 * 15

  /** The options object passed to `response.cookie`; `maxAge` is in
      milliseconds and `expires` in milliseconds since the epoch. */
  datatype CookieOptions = CookieOptions(
    httpOnly: bool,
    secure: bool,
    sameSite: string,
    maxAge: Option<int>,
    expires: Option<int>)

  /** One call of `response.cookie(name, value, options)`. */
  datatype CookieWrite = CookieWrite(name: string, value: string, options: CookieOptions)

  /** The cookie that opens a session for `userId`. */
  function SessionCookie(userId: string): CookieWrite
  {
    CookieWrite(USER_COOKIE_NAME, userId, CookieOptions(true, true, "none", Some(SESSION_MAX_AGE), None))
  }

  /** The cookie that ends the session: `new Date(0)` as expiry. */
  function ClearedCookie(): CookieWrite
  {
    CookieWrite(USER_COOKIE_NAME, "", CookieOptions(true, true, "none", None, Some(0)))
  }

  /** The sign-out cookie overwrites the session cookie (same name, same
      transport attributes) with an empty value that expired at the epoch
      and has no `maxAge`; the session cookie lasts 900000 ms. */
  lemma ClearedCookieOverwritesSession(userId: string)
    ensures var s, c := SessionCookie(userId), ClearedCookie();
            && s.name == c.name == "userId" && s.value == userId && c.value == ""
            && s.options.httpOnly && s.options.secure && s.options.sameSite == "none"
            && s.options.maxAge == Some(900000) && s.options.expires.None?
            && c.options == s.options.(maxAge := None, expires := Some(0))
  {
  }

  /** The Express response, seen through the cookies written to it. */
  class Response {
    var cookies: seq<CookieWrite>

    constructor ()
      ensures cookies == []
    {
      cookies := [];
    }

    method Cookie(name: string, value: string, options: CookieOptions)
      modifies this
      ensures cookies == old(cookies) + [CookieWrite(name, value, options)]
    {
      cookies := cookies + [CookieWrite(name, value, options)];
    }
  }

  /** `UserResponseDto`: the only fields a response ever carries. */
  datatype UserView = UserView(id: string, name: string, email: string)

  /** `plainToInstance(UserResponseDto, user)`. */
  function ToView(u: User): UserView
  {
    UserView(u.id, u.name, u.email)
  }

  /** The view keeps exactly the id, the name and the email: two records
      have the same view if and only if they differ at most in their
      credential, so no response ever shows the credential. */
  lemma ViewOmitsPassword(u: User, w: User)
    ensures ToView(u) == ToView(w) <==> u.(password := w.password) == w
  {
  }

  /** The sign-in body: an email and a password. */
  datatype LoginUserDto = LoginUserDto(email: string, password: string)

  /** The incoming request, seen through its parsed cookies (`undefined` when
      no cookie parser ran). */
  datatype Request = Request(cookies: Option<map<string, string>>)

  /** `request.cookies?.userId`. */
  function UserIdCookie(request: Request): Option<string>
  {
    if request.cookies.Some? && USER_COOKIE_NAME in request.cookies.value
    then Some(request.cookies.value[USER_COOKIE_NAME])
    else None
  }

  /** A request carrying back the cookie a response wrote, as the browser
      sends it. */
  function Echo(c: CookieWrite): Request
  {
    Request(Some(map[c.name := c.value]))
  }

  /** Reading `userId` from the request that echoes the session cookie gives
      the id it was written for, and `getUser` treats it as present exactly
      when that id is non-empty; the cookie sign-out writes reads back as
      missing, and a request without parsed cookies has no `userId`. */
  lemma CookieReadBack(userId: string, request: Request)
    ensures UserIdCookie(Echo(SessionCookie(userId))) == Some(userId)
    ensures IsMissing(UserIdCookie(Echo(SessionCookie(userId)))) <==> userId == ""
    ensures IsMissing(UserIdCookie(Echo(ClearedCookie())))
    ensures request.cookies.None? ==> IsMissing(UserIdCookie(request))
  {
  }

  class UsersController {
    const authService: AuthService
    const userService: UsersService

    constructor (authService: AuthService, userService: UsersService)
      ensures this.authService == authService && this.userService == userService
    {
      this.authService := authService;
      this.userService := userService;
    }

    /** Both collaborators share one user service, as dependency injection
        provides it. */
    ghost predicate Valid()
      reads userService.repository
    {
      && authService.usersService == userService
      && userService.Valid()
    }

    ghost function Users(): seq<User>
      reads userService.repository
    {
      userService.repository.users
    }

    /** On success: one new record, exactly one session cookie for its id,
        and its public view. On a registered email: BadRequest, no cookie,
        no change to the store. */
    method SignUp(dto: CreateUserDto, salt: Salt, response: Response) returns (r: Result<UserView>)
      requires Valid()
      modifies userService.repository, response
      ensures Valid()
      ensures old(Find(Users(), Email, dto.email)).Some? ==>
                && r == Err(BadRequest)
                && Users() == old(Users())
                && response.cookies == old(response.cookies)
      ensures old(Find(Users(), Email, dto.email)).None? ==>
                var user := User(IdOf(old(|Users()|)), dto.name, dto.email,
                                 HashPassword(authService.scrypt, dto.password, salt));
                && r == Ok(ToView(user))
                && Users() == old(Users()) + [user]
                && Find(old(Users()), Id, user.id).None?
                && response.cookies == old(response.cookies) + [SessionCookie(user.id)]
    {
      var user := authService.SignUp(dto.name, dto.email, dto.password, salt);
      if user.Err? {
        return Err(user.error);
      }
      SetUserIdCookie(response, user.value.id);
      r := Ok(ToView(user.value));
    }

    /** On success: exactly one session cookie for the user's id and the
        public view; on NotFound or BadRequest from the auth service: that
        error and no cookie. The store is not changed. */
    method SignIn(dto: LoginUserDto, response: Response) returns (r: Result<UserView>)
      requires Valid()
      modifies response
      ensures Find(Users(), Email, dto.email).None? ==>
                r == Err(NotFound) && response.cookies == old(response.cookies)
      ensures Find(Users(), Email, dto.email).Some? ==>
                var user := Find(Users(), Email, dto.email).value;
                if Verify(authService.scrypt, dto.password, user.password)
                then r == Ok(ToView(user)) && response.cookies == old(response.cookies) + [SessionCookie(user.id)]
                else r == Err(BadRequest) && response.cookies == old(response.cookies)
    {
      var user := authService.SignIn(dto.email, dto.password);
      if user.Err? {
        return Err(user.error);
      }
      SetUserIdCookie(response, user.value.id);
      r := Ok(ToView(user.value));
    }

    /** Writes the expired cookie and nothing else; touches no store. */
    method SignOut(response: Response)
      modifies response
      ensures response.cookies == old(response.cookies) + [ClearedCookie()]
    {
      ClearUserIdCookie(response);
    }

    /** The public view of the user named by the `userId` cookie, none when
        no record has that id, NotFound when the cookie is absent or
        empty. */
    method GetUser(request: Request) returns (r: Result<Option<UserView>>)
      ensures IsMissing(UserIdCookie(request)) ==> r == Err(NotFound)
      ensures !IsMissing(UserIdCookie(request)) ==>
                var found := Find(Users(), Id, UserIdCookie(request).value);
                r == Ok(if found.Some? then Some(ToView(found.value)) else None)
    {
      var userId := UserIdCookie(request);
      var user := userService.FindById(userId);
      if user.Err? {
        return Err(user.error);
      }
      r := Ok(if user.value.Some? then Some(ToView(user.value.value)) else None);
    }

    method SetUserIdCookie(response: Response, userId: string)
      modifies response
      ensures response.cookies == old(response.cookies) + [SessionCookie(userId)]
    {
      response.Cookie(USER_COOKIE_NAME, userId, CookieOptions(true, true, "none", Some(SESSION_MAX_AGE), None));
    }

    method ClearUserIdCookie(response: Response)
      modifies response
      ensures response.cookies == old(response.cookies) + [ClearedCookie()]
    {
      response.Cookie(USER_COOKIE_NAME, "", CookieOptions(true, true, "none", None, Some(0)));
    }
  }

  /** Sign-up with an unregistered email, sign-in with the same email and
      password on the same response, and a request carrying the cookie last
      written: sign-in returns what sign-up returned, and the request
      resolves to that same view. */
  method SessionScenario(controller: UsersController, name: string, email: string, password: string, salt: Salt)
    returns (signedUp: Result<UserView>, signedIn: Result<UserView>, current: Result<Option<UserView>>)
    requires controller.Valid()
    requires Find(controller.Users(), Email, email).None?
    modifies controller.userService.repository
    ensures controller.Valid()
    ensures signedUp.Ok? && signedUp.value.name == name && signedUp.value.email == email
    ensures signedIn == signedUp
    ensures current == Ok(Some(signedUp.value))
  {
    ghost var before := controller.Users();
    var response := new Response();
    signedUp := controller.SignUp(CreateUserDto(name, email, password), salt, response);
    ghost var user := User(IdOf(|before|), name, email, HashPassword(controller.authService.scrypt, password, salt));
    assert controller.Users() == before + [user];
    VerifyHashPassword(controller.authService.scrypt, password, salt);
    FindAfterAppend(before, user, Email, email);
    signedIn := controller.SignIn(LoginUserDto(email, password), response);
    assert response.cookies[|response.cookies| - 1] == SessionCookie(user.id);
    var request := Echo(response.cookies[|response.cookies| - 1]);
    FindAfterAppend(before, user, Id, user.id);
    current := controller.GetUser(request);
  }
}
