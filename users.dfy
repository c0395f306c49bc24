/** The user records and their store: the `User` schema
    (src/users/schemas/user.schema.ts), the repository that creates and finds
    records (src/users/users.repository.ts), modelled as an in-memory
    collection, and the service in front of it (src/users/users.service.ts). */
module Users {
  import opened Outcomes
  import opened Chars

  /** A stored user. `password` holds the credential text, never the
      plaintext. */
  datatype User = User(id: string, name: string, email: string, password: string)

  /** The two fields records are looked up by: `findOne({ email })` and
      `findById(id)`. */
  datatype Key = Email | Id

  function KeyOf(u: User, key: Key): string
  {
    match key
    case Email => u.email
    case Id => u.id
  }

  // Record identifiers ------------------------------------------------------

  function DecimalDigit(d: int): (c: char)
    requires 0 <= d < 10
    ensures IsDigit(c)
  {
    "0123456789"[d]
  }

  predicate IsDecimal(s: string)
  {
    forall i :: 0 <= i < |s| ==> IsDigit(s[i])
  }

  /** The identifier given to the `n`-th record ever created: `n` in
      decimal. */
  function IdOf(n: nat): (s: string)
    ensures |s| >= 1 && IsDecimal(s)
  {
    if n < 10 then [DecimalDigit(n)] else IdOf(n / 10) + [DecimalDigit(n % 10)]
  }

  function ParseDecimal(s: string): nat
    requires IsDecimal(s)
  {
    if |s| == 0 then 0
    else ParseDecimal(s[..|s| - 1]) * 10 + (s[|s| - 1] as int - '0' as int)
  }

  lemma {:induction false} ParseIdOf(n: nat)
    ensures ParseDecimal(IdOf(n)) == n
  {
    if n >= 10 {
      var s := IdOf(n);
      assert s[..|s| - 1] == IdOf(n / 10);
      ParseIdOf(n / 10);
    }
  }

  /** Different records get different identifiers. */
  lemma IdOfInjective(m: nat, n: nat)
    ensures IdOf(m) == IdOf(n) <==> m == n
  {
    if IdOf(m) == IdOf(n) {
      ParseIdOf(m);
      ParseIdOf(n);
    }
  }

  // Lookup ------------------------------------------------------------------

  /** The first record whose `key` field equals `value`, as a database query
      on that field returns it. */
  function Find(users: seq<User>, key: Key, value: string): (r: Option<User>)
    ensures r.Some? ==> r.value in users && KeyOf(r.value, key) == value
    ensures r.None? <==> forall i :: 0 <= i < |users| ==> KeyOf(users[i], key) != value
  {
    if |users| == 0 then None
    else if KeyOf(users[0], key) == value then Some(users[0])
    else Find(users[1..], key, value)
  }

  /** No two records share a value of `key`. */
  predicate Unique(users: seq<User>, key: Key)
  {
    forall i, j :: 0 <= i < j < |users| ==> KeyOf(users[i], key) != KeyOf(users[j], key)
  }

  /** Where a field is unique, looking a record up by its own value of that
      field finds that very record. */
  lemma {:induction false} FindUnique(users: seq<User>, key: Key, i: nat)
    requires Unique(users, key) && i < |users|
    ensures Find(users, key, KeyOf(users[i], key)) == Some(users[i])
  {
    if i > 0 {
      assert KeyOf(users[0], key) != KeyOf(users[i], key);
      assert users[1..][i - 1] == users[i];
      FindUnique(users[1..], key, i - 1);
    }
  }

  /** Appending a record whose field value is new makes lookups of that value
      find it and leaves every other lookup as it was. */
  lemma {:induction false} FindAfterAppend(users: seq<User>, u: User, key: Key, value: string)
    requires Find(users, key, KeyOf(u, key)).None?
    ensures Find(users + [u], key, value)
         == if value == KeyOf(u, key) then Some(u) else Find(users, key, value)
  {
    if |users| > 0 {
      assert (users + [u])[1..] == users[1..] + [u];
      if KeyOf(users[0], key) != value {
        FindAfterAppend(users[1..], u, key, value);
      }
    } else {
      assert (users + [u])[1..] == [];
    }
  }

  // The repository ----------------------------------------------------------

  /** The database collection of users: records in insertion order. */
  class UsersRepository {
    var users: seq<User>

    /** Emails are unique (the schema's `unique: true`), and the `i`-th
        record carries identifier `IdOf(i)`. */
    ghost predicate Valid()
      reads this
    {
      && Unique(users, Email)
      && forall i :: 0 <= i < |users| ==> users[i].id == IdOf(i)
    }

    constructor ()
      ensures Valid() && users == []
    {
      users := [];
    }

    /** `new this.userModel({ name, email, password }).save()`: adds one
        record with a fresh identifier, or fails on the unique index. */
    method Create(name: string, email: string, password: string) returns (r: Result<User>)
      requires Valid()
      modifies this
      ensures Valid()
      ensures old(Find(users, Email, email)).Some? ==> r == Err(DuplicateKey) && users == old(users)
      ensures old(Find(users, Email, email)).None? ==>
                && r == Ok(User(IdOf(old(|users|)), name, email, password))
                && users == old(users) + [r.value]
      ensures r.Ok? ==> Find(old(users), Id, r.value.id).None?
    {
      var existing := Query(Email, email);
      if existing.Some? {
        return Err(DuplicateKey);
      }
      var user := User(IdOf(|users|), name, email, password);
      forall i | 0 <= i < |users|
        ensures users[i].id != user.id
      {
        IdOfInjective(i, |users|);
      }
      users := users + [user];
      r := Ok(user);
    }

    /** `userModel.findOne(filter)` on one field: a scan for the first
        match. */
    method Query(key: Key, value: string) returns (r: Option<User>)
      ensures r == Find(users, key, value)
    {
      var i := 0;
      while i < |users|
        invariant 0 <= i <= |users|
        invariant Find(users[i..], key, value) == Find(users, key, value)
      {
        if KeyOf(users[i], key) == value {
          return Some(users[i]);
        }
        assert users[i..][1..] == users[i + 1..];
        i := i + 1;
      }
      return None;
    }

    /** `userModel.findOne({ email }).exec()`. */
    method FindOne(email: string) returns (r: Option<User>)
      ensures r == Find(users, Email, email)
      ensures r.Some? ==> r.value in users && r.value.email == email
    {
      r := Query(Email, email);
    }

    /** `userModel.findById(id).exec()`. */
    method FindById(id: string) returns (r: Option<User>)
      ensures r == Find(users, Id, id)
      ensures r.Some? ==> r.value in users && r.value.id == id
    {
      r := Query(Id, id);
    }
  }

  /** No record has the empty identifier, so the service's guard on an empty
      id rejects nothing the store could have returned. */
  lemma NoEmptyId(repository: UsersRepository)
    requires repository.Valid()
    ensures Find(repository.users, Id, "").None?
  {
  }

  // The service -------------------------------------------------------------

  /** JavaScript's `!id` for an optional string: absent or empty. */
  predicate IsMissing(id: Option<string>)
  {
    id.None? || id.value == ""
  }

  class UsersService {
    const repository: UsersRepository

    constructor (repository: UsersRepository)
      ensures this.repository == repository
    {
      this.repository := repository;
    }

    ghost predicate Valid()
      reads repository
    {
      repository.Valid()
    }

    method Create(name: string, email: string, password: string) returns (r: Result<User>)
      requires Valid()
      modifies repository
      ensures Valid()
      ensures old(Find(repository.users, Email, email)).Some? ==>
                r == Err(DuplicateKey) && repository.users == old(repository.users)
      ensures old(Find(repository.users, Email, email)).None? ==>
                && r == Ok(User(IdOf(old(|repository.users|)), name, email, password))
                && repository.users == old(repository.users) + [r.value]
      ensures r.Ok? ==> Find(old(repository.users), Id, r.value.id).None?
    {
      r := repository.Create(name, email, password);
    }

    method FindOne(email: string) returns (r: Option<User>)
      ensures r == Find(repository.users, Email, email)
      ensures r.Some? ==> r.value in repository.users && r.value.email == email
    {
      r := repository.FindOne(email);
    }

    /** Throws NotFound for a missing or empty id without consulting the
        store; otherwise the record with that id, or none. */
    method FindById(id: Option<string>) returns (r: Result<Option<User>>)
      ensures IsMissing(id) ==> r == Err(NotFound)
      ensures !IsMissing(id) ==> r == Ok(Find(repository.users, Id, id.value))
    {
      if IsMissing(id) {
        return Err(NotFound);
      }
      var user := repository.FindById(id.value);
      r := Ok(user);
    }
  }
}
