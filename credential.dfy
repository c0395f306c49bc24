/** The stored password credential of src/users/auth.service.ts: the salted
    scrypt hash written at sign-up as `hex(salt) + "." + hex(key)` and the
    split-and-compare that checks a password against it at sign-in. */
module Credential {
  import opened Outcomes
  import opened Hex

  const SALT_LENGTH := 8
  const KEY_LENGTH := 32
  const SEPARATOR := '.'

  /** The output of `randomBytes(8)`. */
  type Salt = s: seq<Byte> | |s| == SALT_LENGTH witness seq(SALT_LENGTH, i => 0)

  /** The 32-byte key scrypt derives. */
  type Digest = s: seq<Byte> | |s| == KEY_LENGTH witness seq(KEY_LENGTH, i => 0)

  /** `scrypt(password, salt, 32)`: a deterministic function of the password
      text and the salt text, otherwise unknown. */
  type Kdf = (string, string) -> Digest

  /** `Array.prototype.join(sep)`. */
  function JoinWith(parts: seq<string>, sep: char): string
  {
    if |parts| == 0 then ""
    else if |parts| == 1 then parts[0]
    else parts[0] + [sep] + JoinWith(parts[1..], sep)
  }

  /** `String.prototype.split(sep)` for a one-character separator: every
      piece between separators, empty ones included. Joining the pieces gives
      the text back and no piece holds the separator. */
  function Split(s: string, sep: char): (parts: seq<string>)
    ensures |parts| >= 1
    ensures JoinWith(parts, sep) == s
    ensures forall i :: 0 <= i < |parts| ==> sep !in parts[i]
  {
    if |s| == 0 then [""]
    else
      var rest := Split(s[1..], sep);
      if s[0] == sep then [""] + rest
      else
        var first := [s[0]] + rest[0];
        assert s == [s[0]] + s[1..];
        assert ([first] + rest[1..])[1..] == rest[1..];
        [first] + rest[1..]
  }

  /** Splitting text that has no separator gives the text alone. */
  lemma {:induction false} SplitWithoutSeparator(s: string, sep: char)
    requires sep !in s
    ensures Split(s, sep) == [s]
  {
    if |s| > 0 {
      SplitWithoutSeparator(s[1..], sep);
      assert [s[0]] + s[1..] == s;
    }
  }

  /** Splitting at a first separator peels off the text before it. */
  lemma {:induction false} SplitAtFirst(a: string, sep: char, b: string)
    requires sep !in a
    ensures Split(a + [sep] + b, sep) == [a] + Split(b, sep)
  {
    var s := a + [sep] + b;
    if |a| == 0 {
      assert s[1..] == b;
    } else {
      assert s[1..] == a[1..] + [sep] + b;
      SplitAtFirst(a[1..], sep, b);
      assert [a[0]] + a[1..] == a;
    }
  }

  /** Text splits into two pieces or more exactly when it holds the
      separator. */
  lemma SplitHasSecondPiece(s: string, sep: char)
    ensures |Split(s, sep)| >= 2 <==> sep in s
  {
    if sep !in s {
      SplitWithoutSeparator(s, sep);
    }
  }

  /** `${salt}.${hash}`: when the salt holds no `.`, splitting the joined
      text gives the salt first and then the pieces of the hash. */
  function Join(salt: string, hash: string): (c: string)
    ensures SEPARATOR !in salt ==> Split(c, SEPARATOR) == [salt] + Split(hash, SEPARATOR)
  {
    var c := salt + [SEPARATOR] + hash;
    assert SEPARATOR !in salt ==> Split(c, SEPARATOR) == [salt] + Split(hash, SEPARATOR) by {
      if SEPARATOR !in salt {
        SplitAtFirst(salt, SEPARATOR, hash);
      }
    }
    c
  }

  /** Neither half of a joined credential may hold a `.` for the split to
      give the halves back; hex text never does. */
  lemma SplitJoin(salt: string, hash: string)
    requires SEPARATOR !in salt && SEPARATOR !in hash
    ensures Split(Join(salt, hash), SEPARATOR) == [salt, hash]
  {
    SplitWithoutSeparator(hash, SEPARATOR);
  }

  lemma HexHasNoSeparator(s: string)
    requires IsHexString(s)
    ensures SEPARATOR !in s
  {
  }

  /** What `const [salt, storedHash] = user.password.split('.')` binds:
      the first piece, and the second piece or `undefined`. */
  datatype StoredParts = StoredParts(salt: string, storedHash: Option<string>)

  function Destructure(stored: string): (p: StoredParts)
    ensures p.salt == Split(stored, SEPARATOR)[0]
    ensures p.storedHash.Some? <==> SEPARATOR in stored
    ensures p.storedHash.Some? ==>
              |Split(stored, SEPARATOR)| >= 2 && p.storedHash.value == Split(stored, SEPARATOR)[1]
  {
    var parts := Split(stored, SEPARATOR);
    SplitHasSecondPiece(stored, SEPARATOR);
    StoredParts(parts[0], if |parts| >= 2 then Some(parts[1]) else None)
  }

  /** The credential sign-up stores: the salt as hex text, and the hex text
      of scrypt applied to the password and that salt TEXT. */
  function HashPassword(scrypt: Kdf, password: string, salt: Salt): (c: string)
    ensures |c| == 2 * SALT_LENGTH + 1 + 2 * KEY_LENGTH
    ensures Split(c, SEPARATOR) == [Encode(salt), Encode(scrypt(password, Encode(salt)))]
  {
    var hexSalt := Encode(salt);
    var hexHash := Encode(scrypt(password, hexSalt));
    HexHasNoSeparator(hexSalt);
    HexHasNoSeparator(hexHash);
    SplitJoin(hexSalt, hexHash);
    Join(hexSalt, hexHash)
  }

  /** Sign-in's check: hash the password with the first piece of the stored
      credential as salt, and compare its hex text with the second piece by
      string equality. A missing second piece never compares equal. */
  predicate Verify(scrypt: Kdf, password: string, stored: string)
    ensures Verify(scrypt, password, stored) <==>
              var parts := Split(stored, SEPARATOR);
              |parts| >= 2 && parts[1] == Encode(scrypt(password, parts[0]))
  {
    var parts := Destructure(stored);
    parts.storedHash == Some(Encode(scrypt(password, parts.salt)))
  }

  /** The stored credential splits on `.` into a 16-character salt and a
      64-character hash, both lowercase hex. */
  lemma CredentialShape(scrypt: Kdf, password: string, salt: Salt)
    ensures var hexSalt := Encode(salt);
            var hexHash := Encode(scrypt(password, hexSalt));
            && Split(HashPassword(scrypt, password, salt), SEPARATOR) == [hexSalt, hexHash]
            && |hexSalt| == 2 * SALT_LENGTH && |hexHash| == 2 * KEY_LENGTH
            && IsHexString(hexSalt) && IsHexString(hexHash)
  {
  }

  /** Reading the stored credential back gives exactly the salt text it was
      hashed with and its hash text. */
  lemma DestructureHashPassword(scrypt: Kdf, password: string, salt: Salt)
    ensures Destructure(HashPassword(scrypt, password, salt))
         == StoredParts(Encode(salt), Some(Encode(scrypt(password, Encode(salt)))))
  {
    CredentialShape(scrypt, password, salt);
  }

  /** The password a credential was made from verifies against it. */
  lemma VerifyHashPassword(scrypt: Kdf, password: string, salt: Salt)
    ensures Verify(scrypt, password, HashPassword(scrypt, password, salt))
  {
    DestructureHashPassword(scrypt, password, salt);
  }

  /** Another password verifies exactly when scrypt gives it the same key
      under the same salt; so only a scrypt collision lets a wrong password
      in. */
  lemma VerifyExactlyOnSameKey(scrypt: Kdf, password: string, attempt: string, salt: Salt)
    ensures Verify(scrypt, attempt, HashPassword(scrypt, password, salt))
        <==> scrypt(attempt, Encode(salt)) == scrypt(password, Encode(salt))
  {
    DestructureHashPassword(scrypt, password, salt);
    EncodeInjective(scrypt(attempt, Encode(salt)), scrypt(password, Encode(salt)));
  }

  /** A stored credential without a `.` rejects every password. */
  lemma NoSeparatorNeverVerifies(scrypt: Kdf, password: string, stored: string)
    requires SEPARATOR !in stored
    ensures !Verify(scrypt, password, stored)
  {
  }

  /** Two sign-ups with different salts store different credentials, even
      for the same password. */
  lemma DistinctSaltsDistinctCredentials(scrypt: Kdf, password: string, salt1: Salt, salt2: Salt)
    requires salt1 != salt2
    ensures HashPassword(scrypt, password, salt1) != HashPassword(scrypt, password, salt2)
  {
    DestructureHashPassword(scrypt, password, salt1);
    DestructureHashPassword(scrypt, password, salt2);
    EncodeInjective(salt1, salt2);
  }
}
