/** The sign-up and sign-in flow of src/users/auth.service.ts over the user
    service, with scrypt as a fixed deterministic function and the random
    salt as an explicit input. */
module Auth {
  import opened Outcomes
  import opened Hex
  import opened Credential
  import opened Users

  class AuthService {
    const usersService: UsersService
    const scrypt: Kdf

    constructor (usersService: UsersService, scrypt: Kdf)
      ensures this.usersService == usersService && this.scrypt == scrypt
    {
      this.usersService := usersService;
      this.scrypt := scrypt;
    }

    ghost predicate Valid()
      reads usersService.repository
    {
      usersService.Valid()
    }

    /** The records of the store behind the service. */
    ghost function Users(): seq<User>
      reads usersService.repository
    {
      usersService.repository.users
    }

    /** Refuses a registered email with BadRequest and no change to the
        store; otherwise stores exactly one new record holding the name, the
        email and the salted hash of the password, and returns it. */
    method SignUp(name: string, email: string, password: string, salt: Salt) returns (r: Result<User>)
      requires Valid()
      modifies usersService.repository
      ensures Valid()
      ensures old(Find(Users(), Email, email)).Some? ==>
                r == Err(BadRequest) && Users() == old(Users())
      ensures old(Find(Users(), Email, email)).None? ==>
                && r.Ok?
                && r.value == User(IdOf(old(|Users()|)), name, email, HashPassword(scrypt, password, salt))
                && Users() == old(Users()) + [r.value]
                && Find(old(Users()), Id, r.value.id).None?
    {
      var user := usersService.FindOne(email);
      if user.Some? {
        return Err(BadRequest);
      }
      var hexSalt := Encode(salt);
      var hash := scrypt(password, hexSalt);
      var saltAndPassword := Join(hexSalt, Encode(hash));
      r := usersService.Create(name, email, saltAndPassword);
    }

    /** NotFound for an unknown email; BadRequest when the password's hash
        under the stored salt differs from the stored hash; otherwise the
        stored record. Reads the store only. */
    method SignIn(email: string, password: string) returns (r: Result<User>)
      ensures Find(Users(), Email, email).None? ==> r == Err(NotFound)
      ensures Find(Users(), Email, email).Some? ==>
                var user := Find(Users(), Email, email).value;
                r == if Verify(scrypt, password, user.password) then Ok(user) else Err(BadRequest)
    {
      var user := usersService.FindOne(email);
      if user.None? {
        return Err(NotFound);
      }
      var parts := Destructure(user.value.password);
      var hash := scrypt(password, parts.salt);
      if parts.storedHash != Some(Encode(hash)) {
        return Err(BadRequest);
      }
      r := Ok(user.value);
    }
  }

  /** Signing in right after signing up, with the same email and password,
      returns the record sign-up stored. */
  method SignUpThenSignIn(auth: AuthService, name: string, email: string, password: string, salt: Salt)
    returns (signedUp: Result<User>, signedIn: Result<User>)
    requires auth.Valid()
    modifies auth.usersService.repository
    ensures auth.Valid()
    ensures old(Find(auth.Users(), Email, email)).None? ==> signedUp.Ok? && signedIn == signedUp
  {
    signedUp := auth.SignUp(name, email, password, salt);
    if signedUp.Ok? {
      VerifyHashPassword(auth.scrypt, password, salt);
      FindAfterAppend(old(auth.Users()), signedUp.value, Email, email);
    }
    signedIn := auth.SignIn(email, password);
  }
}
