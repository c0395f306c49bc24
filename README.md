# Email/password authentication core, modelled in Dafny

This project models the sign-up and sign-in core of a NestJS API that
registers users by email and password and identifies them afterwards by a
`userId` cookie. It covers the following parts:

- **Credentials** (`Hex`, `Credential`). At sign-up the password is hashed
  with scrypt under an 8-byte random salt. The salt goes to scrypt as its
  *hex text*, not as bytes. The stored credential is `hex(salt) + "." +
  hex(key)`. At sign-in the stored text is split on `.`, the password is
  hashed again with the first piece as salt, and the hex texts are compared
  with `!==`.
- **The user store** (`Users`). The database collection is an in-memory
  class `UsersRepository` holding a sequence of `User{id, name, email,
  password}` records. Emails are unique, as the schema's unique index makes
  them. `UsersService` sits in front of it and guards `findById` against a
  missing or empty id.
- **The auth service** (`Auth`). `AuthService.SignUp` and
  `AuthService.SignIn` are written step by step, as in the source, and have
  the same early exits.
- **The controller** (`Controller`). The Express response is a log of
  `response.cookie(...)` calls. Sign-up and sign-in write one session cookie
  with fixed attributes. Sign-out writes an expired empty cookie. Every
  answer is the public view `{id, name, email}`.
- **Sign-up validation** (`UserDto`). The `CreateUserDto` rules, including
  the unanchored password pattern with its three lookaheads.
- **Development CORS** (`Cors`). The origin callback and its anchored
  pattern.

Inputs the code takes from outside are parameters of the model:

- scrypt is the constant `AuthService.scrypt`. Its type is
  `Kdf = (string, string) -> Digest`: a fixed function to exactly 32 bytes,
  about which nothing else is assumed.
- `randomBytes(8)` is the explicit `salt: Salt` argument of sign-up.

The database's record identifier is not an input. It is modelled by the
decimal index of the record (`IdOf`), which stands in for the generated
ObjectId (see "## Left out"). Records are never deleted here, so
identifiers are fresh and never reused.

In several places the code departs from common practice for password
storage and sessions; the model follows the code:

- The comparison is a plain string `!==`, not a constant-time comparison.
- A malformed stored credential raises nothing special. Without a `.` the
  second piece is `undefined`, which never compares equal, so sign-in gives
  BadRequest. Pieces after the second are ignored.
- The cookie's `sameSite` is `'none'`.
- A missing session cookie raises NotFound. It is not treated as a normal
  "not authenticated" result.
- scrypt receives the salt's hex text.

## Model

| member | source | states |
|---|---|---|
| `Hex.Encode` | src/users/auth.service.ts:26-28 | `Buffer.toString('hex')`: exactly two characters per byte, every one a lowercase hex digit |
| `Hex.DecodeEncode` | src/users/auth.service.ts:26-28 | decoding the hex text of any byte string gives back exactly those bytes |
| `Hex.EncodeDecode` | src/users/auth.service.ts:26-28 | any text the decoder accepts is exactly the encoding of what it decodes to |
| `Hex.EncodeInjective` | src/users/auth.service.ts:42 | two byte strings have equal hex text if and only if they are equal, so comparing hex texts compares keys |
| `Credential.Split` | src/users/auth.service.ts:39 | `split('.')` gives at least one piece, no piece contains `.`, and joining the pieces with `.` gives back the input |
| `Credential.SplitWithoutSeparator` | src/users/auth.service.ts:39 | text without `.` splits into itself alone |
| `Credential.SplitAtFirst` | src/users/auth.service.ts:39 | splitting `a + "." + b`, where `a` has no `.`, gives `a` followed by the pieces of `b` |
| `Credential.SplitHasSecondPiece` | src/users/auth.service.ts:39 | there is a second piece if and only if the text contains `.` |
| `Credential.SplitJoin` | src/users/auth.service.ts:28 | when neither half contains `.`, splitting `salt + "." + hash` gives back exactly `[salt, hash]` |
| `Credential.Join` | src/users/auth.service.ts:28 | when the salt holds no `.`, splitting `${salt}.${hash}` gives the salt as first piece followed by the pieces of the hash; `Credential.SplitJoin` gives back exactly `[salt, hash]` |
| `Credential.Destructure` | src/users/auth.service.ts:39 | `[salt, storedHash]` binds the first piece, and binds the second piece exactly when the text contains `.` (otherwise `undefined`) |
| `Credential.HashPassword` | src/users/auth.service.ts:26-28 | the stored credential is 81 characters long and splits on `.` into exactly the hex salt and the hex text of scrypt(password, hex salt); its partners are `Credential.DestructureHashPassword` and `Credential.VerifyHashPassword` |
| `Credential.Verify` | src/users/auth.service.ts:39-42 | a password passes if and only if the stored text has a second piece and it equals the hex text of scrypt(password, first piece); its partners are `Credential.VerifyHashPassword` and `Credential.VerifyExactlyOnSameKey` |
| `Credential.CredentialShape` | src/users/auth.service.ts:26-28 | the stored credential splits into exactly two pieces: the 16-character lowercase hex salt and the 64-character lowercase hex hash of scrypt(password, hex salt) |
| `Credential.DestructureHashPassword` | src/users/auth.service.ts:26-39 | reading back a stored credential gives exactly the salt text and the hash text it was made from |
| `Credential.VerifyHashPassword` | src/users/auth.service.ts:26-45 | the password a credential was made from passes sign-in's comparison with it |
| `Credential.VerifyExactlyOnSameKey` | src/users/auth.service.ts:39-45 | another password passes if and only if scrypt gives it the same key under the same salt text |
| `Credential.NoSeparatorNeverVerifies` | src/users/auth.service.ts:39-45 | a stored credential without `.` rejects every password |
| `Credential.DistinctSaltsDistinctCredentials` | src/users/auth.service.ts:26-28 | the same password stored under two different salts gives two different credentials |
| `Users.IdOf` | src/users/schemas/user.schema.ts:8-9 | a record identifier is a non-empty string of decimal digits |
| `Users.ParseIdOf` | src/users/schemas/user.schema.ts:8-9 | the record index can be read back from its identifier |
| `Users.IdOfInjective` | src/users/schemas/user.schema.ts:8-9 | different records get different identifiers |
| `Users.Find` | src/users/users.repository.ts:19-25 | a query on one field returns a stored record with that field value, and returns none if and only if no record has that value |
| `Users.FindUnique` | src/users/schemas/user.schema.ts:14 | when a field is unique, looking up a record by its own value finds that very record |
| `Users.FindAfterAppend` | src/users/users.repository.ts:10-25 | after adding a record with a new field value, lookups of that value find it, and all other lookups are unchanged |
| `Users.UsersRepository.Create` | src/users/users.repository.ts:10-17 | a duplicate email fails on the unique index and changes nothing; otherwise exactly one record is appended, with the given fields and an id no existing record has; email uniqueness is preserved |
| `Users.UsersRepository.Query` | src/users/users.repository.ts:19-25 | the scan returns exactly the first record matching the filter, or none |
| `Users.UsersRepository.FindOne` | src/users/users.repository.ts:19-21 | `findOne({ email })` returns the record with that email, or none |
| `Users.UsersRepository.FindById` | src/users/users.repository.ts:23-25 | `findById(id)` returns the record with that id, or none |
| `Users.IsMissing` | src/users/users.service.ts:19 | `!id` holds for an absent or empty id; `Users.NoEmptyId` shows no stored record has such an id, and `Controller.CookieReadBack` shows the sign-out cookie reads back as missing |
| `Users.NoEmptyId` | src/users/users.service.ts:18-22 | no stored record has the empty id, so the guard on an empty id hides no record |
| `Users.UsersService.Create` | src/users/users.service.ts:10-12 | passes creation through to the repository with the same outcome and the same new store |
| `Users.UsersService.FindOne` | src/users/users.service.ts:14-16 | returns the record with that email, or none |
| `Users.UsersService.FindById` | src/users/users.service.ts:18-23 | NotFound for a missing or empty id; otherwise the record with that id, or none |
| `Auth.AuthService.SignUp` | src/users/auth.service.ts:19-30 | a registered email gives BadRequest and leaves the store unchanged; otherwise exactly one record is added holding the name, the email and `hex(salt) + "." + hex(scrypt(password, hex(salt)))`, and that record is returned |
| `Auth.AuthService.SignIn` | src/users/auth.service.ts:32-48 | NotFound for an unknown email; BadRequest when the recomputed hex hash differs from the stored one; otherwise the stored record; the store is only read |
| `Auth.SignUpThenSignIn` | src/users/auth.service.ts:19-48 | signing in with the email and password just signed up with returns the record sign-up stored |
| `Controller.ClearedCookieOverwritesSession` | src/users/users.controller.ts:62-78 | the sign-out cookie has the session cookie's name (`userId`) and attributes (httpOnly, secure, sameSite none), an empty value, expiry at epoch 0 and no maxAge; the session cookie has maxAge 900000 |
| `Controller.SessionCookie` | src/users/users.controller.ts:63-68 | the session cookie; its name, value and options are stated by `Controller.ClearedCookieOverwritesSession` |
| `Controller.ClearedCookie` | src/users/users.controller.ts:72-77 | the sign-out cookie; `Controller.ClearedCookieOverwritesSession` relates it to the session cookie |
| `Controller.UserIdCookie` | src/users/users.controller.ts:57 | `request.cookies?.userId`; `Controller.CookieReadBack` reads a written cookie back |
| `Controller.CookieReadBack` | src/users/users.controller.ts:57-77 | a request that sends back the session cookie yields exactly its id, which counts as present exactly when it is non-empty; the sign-out cookie reads back as missing, and so does a request without parsed cookies |
| `Controller.ToView` | src/users/dto/user-response.dto.ts:3-13 | `plainToInstance(UserResponseDto, user)`, used at users.controller.ts lines 31, 46 and 59: only `id`, `name` and `email` are exposed |
| `Controller.ViewOmitsPassword` | src/users/dto/user-response.dto.ts:3-13 | two records have the same view if and only if they differ at most in their credential, so the view never depends on the credential |
| `Controller.Response.Cookie` | src/users/users.controller.ts:63 | each `response.cookie` call appends exactly one write to the response's cookie log |
| `Controller.UsersController.SignUp` | src/users/users.controller.ts:20-33 | on success: one new record, exactly one session cookie carrying its id, and its public view; on a registered email: BadRequest, no cookie and no change to the store |
| `Controller.UsersController.SignIn` | src/users/users.controller.ts:35-47 | on a matching password: exactly one session cookie carrying the user's id, and the public view; on NotFound or BadRequest: that error and no cookie |
| `Controller.UsersController.SignOut` | src/users/users.controller.ts:49-52 | writes the expired empty cookie and nothing else |
| `Controller.UsersController.GetUser` | src/users/users.controller.ts:54-60 | NotFound when the `userId` cookie is absent or empty; otherwise the public view of the record with that id, or none |
| `Controller.UsersController.SetUserIdCookie` | src/users/users.controller.ts:62-69 | appends the `userId` session cookie for the given id |
| `Controller.UsersController.ClearUserIdCookie` | src/users/users.controller.ts:71-78 | appends the expired `userId` cookie |
| `Controller.SessionScenario` | src/users/users.controller.ts:20-60 | sign-up with a new email, then sign-in, then a request carrying the last cookie written: sign-in returns sign-up's view and the request resolves to it |
| `UserDto.Lookahead` | src/users/dto/create-user.dto.ts:22 | the scan for `(?=.*[class])` succeeds if and only if a character of the class occurs at or after the position with no line terminator before it |
| `UserDto.Search` | src/users/dto/create-user.dto.ts:22 | the search from a position succeeds if and only if the pattern matches at some later start |
| `UserDto.TestPassword` | src/users/dto/create-user.dto.ts:22 | `regex.test` succeeds if and only if some start position has an allowed character and all three lookaheads hold there |
| `UserDto.Validate` | src/users/dto/create-user.dto.ts:9-27 | a body is accepted if and only if name and email are non-empty strings and the password is a string of at least 8 characters that matches the pattern; it then passes through unchanged, and otherwise the result is BadRequest |
| `UserDto.PatternInContext` | src/users/dto/create-user.dto.ts:22 | the pattern is unanchored: a matching password still matches with any text around it |
| `UserDto.ExamplePasswordMatches` | src/users/dto/create-user.dto.ts:22 | `Password1@` matches the pattern |
| `UserDto.AcceptsExamplePassword` | src/users/dto/create-user.dto.ts:9-27 | a body with any non-empty name and email and the password `Password1@` is accepted |
| `UserDto.RejectsPasswordWithoutDigit` | src/users/dto/create-user.dto.ts:19-22 | `Password` has the length but does not match, so the body is refused with BadRequest |
| `UserDto.ExamplePasswordInAnyContext` | src/users/dto/create-user.dto.ts:22 | characters outside the allowed set around `Password1@` do not cause a rejection |
| `UserDto.LineTerminatorBlocks` | src/users/dto/create-user.dto.ts:22 | a lookahead does not see past a line terminator |
| `UserDto.RejectsDigitBehindLineBreak` | src/users/dto/create-user.dto.ts:22 | `Password!\n1` does not match: the digit lies behind a line break |
| `Cors.OriginPattern` | src/main.ts:11 | the reference definition of the anchored pattern as four alternatives; `Cors.RegexTest` is proved to decide it, and `Cors.AcceptedOriginShape` bounds its strings |
| `Cors.RegexTest` | src/main.ts:11-12 | the left-to-right test succeeds if and only if the origin is exactly `http` or `https`, then `://`, then `localhost` or `127.0.0.1`, then either nothing or `:` with 1 to 5 digits |
| `Cors.OriginCallback` | src/main.ts:10-17 | an origin is allowed if and only if it is absent, empty, or matches the whole pattern; every other origin is rejected |
| `Cors.CorsDecision` | src/main.ts:8-21 | the origin rule applies exactly when `NODE_ENV` is not `production` |
| `Cors.AcceptedOriginShape` | src/main.ts:11 | an accepted origin has at most 23 characters and no `/` after its `//` |
| `Cors.SlashAfterAuthorityRejected` | src/main.ts:11-16 | an origin with a path or a trailing slash is rejected |
| `Cors.LongOriginRejected` | src/main.ts:11-16 | an origin longer than 23 characters is rejected |
| `Cors.PortDigitsNotRange` | src/main.ts:11 | `:99999` is accepted (no range check), and six port digits in the 23-character `http://127.0.0.1:123456` are rejected |
| `Cors.AnchoredAtEnd` | src/main.ts:11 | a trailing slash, one extra character right after `localhost` (`http://localhostx`), or a longer host name is rejected |
| `Cors.AnchoredAtStart` | src/main.ts:11 | another host is rejected, and so is `xhttp://localhost`, where one character precedes the scheme |
| `Cors.AcceptedExamples` | src/main.ts:11-13 | no origin, the empty origin, `http://localhost:3000` and `https://127.0.0.1` are allowed |

## Left out

- scrypt and `randomBytes` internals: foreign cryptography. scrypt is an arbitrary fixed 32-byte function and the salt an input. Nothing is claimed about collisions. A wrong password is shown to fail only when its key differs.
- Constant-time comparison: timing is not modelled. The comparison is string equality, as the code writes it.
- Logger calls in the auth service: logging side effects only.
- Mongoose, MongoDB, the configuration module and environment wiring: replaced by the in-memory store. Only email uniqueness and fresh ids are kept.
- Users.IdOf: the database generates `_id` as an ObjectId, whose text is 24 lowercase hex characters. The model uses the record's decimal index instead. Only two facts of the identifier are meant: it is non-empty, and no other record has it. So `Create` and the sign-up methods promise `IdOf(old(|users|))` as the new id, a value the database would not produce.
- Users.UsersRepository.FindById: a non-empty id that is not a valid ObjectId makes Mongoose throw a cast error. The model treats every non-empty id as a plain lookup key.
- `timestamps: true` on the schema: the createdAt/updatedAt fields are not modelled.
- NestJS dependency injection, decorators, the ValidationPipe's whitelist options, cookie-parser, HTTP and `app.listen`: framework and I/O. `UsersController.Valid` states the one wiring fact used: both services share one store.
- Promise and async semantics: everything runs sequentially. `getUser` passes an un-awaited promise to `plainToInstance`. It is modelled as a synchronous lookup, with a rejected lookup surfacing as NotFound.
- Concurrency: the window between the email look-up and the insert is not modelled. In the sequential model the unique-index failure (DuplicateKey) is proved never to reach `SignUp`'s caller.
- `@IsEmail` format checking: class-validator's email rules are not modelled; email is checked for being non-empty only.
- `@MinLength` counting: length is counted in characters, not UTF-16 code units.
- Request bodies with extra or non-string fields: a non-string field is modelled as absent.
- The sign-in body's validation rules: `login-user.dto.ts` is not part of this model.
- The rest of the bootstrap in src/main.ts (allowed methods, `credentials: true`, the port): configuration with no logic.
