/** backend/app/auth.py: password hashing, access tokens, signup and login.
    bcrypt and the JWT encoder are kept symbolic: a hash records the salt
    it was made with and the secret it digests (so two hashes agree only
    on the same secret), and a token records its claims, key and
    algorithm. The salt bcrypt draws and the clock are inputs. */
module Auth {
  import opened Py
  import opened Text

  const DefaultSecretKey := "mysecretkey"
  const Algorithm := "HS256"
  const AccessTokenExpireMinutes: nat := 60
  /** bcrypt reads at most 72 bytes of a secret. */
  const BcryptLimit: nat := 72
  /** `constr(max_length=72)` on both request bodies. */
  const PasswordMaxLength: nat := 72
  const TokenType := "bearer"
  const UsernameTaken := "Username already exists"
  const InvalidCredentials := "Invalid credentials"
  /** "✅ Signup successful" (U+2705 is the check mark). */
  const SignupSuccessful: string := ['\U{2705}'] + " Signup successful"

  /** `SECRET_KEY`: the environment's value, or the built-in default. */
  function SecretKey(env: map<string, string>): string {
    if "SECRET_KEY" in env then env["SECRET_KEY"] else DefaultSecretKey
  }

  // ---------------------------------------------------------------------
  // Hashing

  datatype PasswordHash = Bcrypt(salt: nat, secret: string)

  /** `get_password_hash(password)`: hashes the first 72 characters. */
  function GetPasswordHash(password: string, salt: nat): (h: PasswordHash)
    ensures |h.secret| <= BcryptLimit
  {
    Bcrypt(salt, Take(password, BcryptLimit))
  }

  /** `verify_password(plain, hashed)`: compares the first 72 characters of
      the candidate with the secret the hash was made from. */
  predicate VerifyPassword(plain: string, hashed: PasswordHash) {
    Take(plain, BcryptLimit) == hashed.secret
  }

  /** A password checks against a hash exactly when the two agree on their
      first 72 characters, whatever the salt. */
  lemma VerifyHashIff(plain: string, original: string, salt: nat)
    ensures VerifyPassword(plain, GetPasswordHash(original, salt))
            <==> Take(plain, BcryptLimit) == Take(original, BcryptLimit)
  {
  }

  /** For passwords the request models accept (at most 72 characters) the
      truncation changes nothing: the check is plain equality. */
  lemma VerifyAcceptedIff(plain: string, original: string, salt: nat)
    requires |plain| <= PasswordMaxLength && |original| <= PasswordMaxLength
    ensures VerifyPassword(plain, GetPasswordHash(original, salt)) <==> plain == original
  {
    assert Take(plain, BcryptLimit) == plain;
    assert Take(original, BcryptLimit) == original;
  }

  // ---------------------------------------------------------------------
  // Tokens

  datatype Claim = ClaimText(text: string) | ClaimTime(seconds: int)

  /** A signed token: its payload, the key it is signed with and the
      algorithm named in its header. */
  datatype Jwt = Jwt(claims: map<string, Claim>, key: string, alg: string)

  /** `expires_delta or timedelta(minutes=60)`: a zero delta is falsy and
      falls back to the default. Deltas are in seconds. */
  function ExpiryDelta(expiresDelta: Option<int>): (d: int)
    ensures expiresDelta.Some? && expiresDelta.value != 0 ==> d == expiresDelta.value
    ensures expiresDelta.None? || expiresDelta.value == 0 ==> d == AccessTokenExpireMinutes * 60
  {
    if expiresDelta.Some? && expiresDelta.value != 0 then expiresDelta.value
    else AccessTokenExpireMinutes * 60
  }

  /** `create_access_token(data, expires_delta)` at time `now`: the claims
      are a copy of `data` with `exp` set, overriding any `exp` in `data`. */
  function CreateAccessToken(data: map<string, Claim>, expiresDelta: Option<int>, now: int, key: string): (t: Jwt)
    ensures t.key == key && t.alg == Algorithm
    ensures t.claims.Keys == data.Keys + {"exp"}
    ensures t.claims["exp"] == ClaimTime(now + ExpiryDelta(expiresDelta))
    ensures forall k :: k in data && k != "exp" ==> t.claims[k] == data[k]
  {
    Jwt(data["exp" := ClaimTime(now + ExpiryDelta(expiresDelta))], key, Algorithm)
  }

  // ---------------------------------------------------------------------
  // Users

  datatype User = User(username: string, password: PasswordHash)

  /** Usernames are unique (`unique=True` on the column). */
  ghost predicate UniqueUsernames(users: seq<User>) {
    forall i, j :: 0 <= i < j < |users| ==> users[i].username != users[j].username
  }

  /** `db.query(User).filter(User.username == name).first()`. */
  function FindUser(users: seq<User>, name: string): (r: Option<User>)
    ensures r.None? <==> forall i :: 0 <= i < |users| ==> users[i].username != name
    ensures r.Some? ==> r.value in users && r.value.username == name
  {
    if users == [] then None
    else if users[0].username == name then Some(users[0])
    else FindUser(users[1..], name)
  }

  /** In a table with unique usernames, the row found for a name is the
      only row with that name. */
  lemma {:induction false} FindUserUnique(users: seq<User>, i: nat)
    requires UniqueUsernames(users) && i < |users|
    ensures FindUser(users, users[i].username) == Some(users[i])
  {
    if i > 0 {
      assert users[0].username != users[i].username;
      assert UniqueUsernames(users[1..]) by {
        forall a, b | 0 <= a < b < |users[1..]|
          ensures users[1..][a].username != users[1..][b].username
        {
          assert users[1..][a] == users[a + 1] && users[1..][b] == users[b + 1];
        }
      }
      FindUserUnique(users[1..], i - 1);
    }
  }

  /** Pydantic's validation of `UserCreate` and `UserLogin`: a password
      longer than 72 characters is refused before the handler runs. */
  function ValidatePassword(password: string): (r: Result<string>)
    ensures r.Ok? <==> |password| <= PasswordMaxLength
    ensures r.Ok? ==> r.value == password
    ensures r.Raise? ==> r.error == ValidationError
  {
    if |password| <= PasswordMaxLength then Ok(password) else Raise(ValidationError)
  }

  datatype SignupResponse = SignupResponse(message: string, username: string)

  /** The users table after `signup(user)`, or the exception raised. */
  function Register(users: seq<User>, username: string, password: string, salt: nat): (r: Result<seq<User>>)
    ensures r.Raise? <==> |password| > PasswordMaxLength || FindUser(users, username).Some?
    ensures |password| > PasswordMaxLength ==> r == Raise(ValidationError)
    ensures |password| <= PasswordMaxLength && FindUser(users, username).Some? ==>
      r == Raise(HttpError(400, UsernameTaken))
    ensures r.Ok? ==> r.value == users + [User(username, GetPasswordHash(password, salt))]
    ensures r.Ok? && UniqueUsernames(users) ==> UniqueUsernames(r.value)
  {
    var pw :- ValidatePassword(password);
    if FindUser(users, username).Some? then Raise(HttpError(400, UsernameTaken))
    else Ok(users + [User(username, GetPasswordHash(pw, salt))])
  }

  datatype Token = Token(accessToken: Jwt, tokenType: string)

  /** `login(user)` against the users table at time `now`, in the
      environment `env` that decides `SECRET_KEY`. */
  function Login(users: seq<User>, username: string, password: string, now: int, env: map<string, string>): (r: Result<Token>)
    ensures r.Ok? <==> |password| <= PasswordMaxLength && FindUser(users, username).Some?
                       && VerifyPassword(password, FindUser(users, username).value.password)
    ensures |password| > PasswordMaxLength ==> r == Raise(ValidationError)
    ensures |password| <= PasswordMaxLength && r.Raise? ==> r.error == HttpError(401, InvalidCredentials)
    ensures r.Ok? ==> r.value.tokenType == TokenType
    ensures r.Ok? ==> r.value.accessToken
                      == Jwt(map["sub" := ClaimText(username), "exp" := ClaimTime(now + AccessTokenExpireMinutes * 60)],
                             SecretKey(env), Algorithm)
  {
    var pw :- ValidatePassword(password);
    var found := FindUser(users, username);
    if found.None? || !VerifyPassword(pw, found.value.password) then Raise(HttpError(401, InvalidCredentials))
    else
      var token := CreateAccessToken(map["sub" := ClaimText(username)], None, now, SecretKey(env));
      assert token.claims == map["sub" := ClaimText(username), "exp" := ClaimTime(now + AccessTokenExpireMinutes * 60)];
      Ok(Token(token, TokenType))
  }

  /** Whoever signs up can log in with the same password, and with no
      other accepted password. */
  lemma LoginAfterSignup(users: seq<User>, username: string, password: string, other: string,
                         salt: nat, now: int, env: map<string, string>)
    requires UniqueUsernames(users)
    requires Register(users, username, password, salt).Ok?
    requires |other| <= PasswordMaxLength
    ensures Login(Register(users, username, password, salt).value, username, password, now, env).Ok?
    ensures Login(Register(users, username, password, salt).value, username, other, now, env).Ok?
            <==> other == password
  {
    var after := Register(users, username, password, salt).value;
    FindUserUnique(after, |users|);
    assert after[|users|].username == username;
    VerifyAcceptedIff(password, password, salt);
    VerifyAcceptedIff(other, password, salt);
  }

  /** A second signup under the same name is refused and changes nothing. */
  lemma SignupTwiceRefused(users: seq<User>, username: string, password: string, again: string,
                           salt: nat, salt2: nat)
    requires Register(users, username, password, salt).Ok?
    requires |again| <= PasswordMaxLength
    ensures Register(Register(users, username, password, salt).value, username, again, salt2)
            == Raise(HttpError(400, UsernameTaken))
  {
    var after := Register(users, username, password, salt).value;
    assert after[|users|].username == username;
  }

  /** The `users` table as the signup route changes it. */
  class UserTable {
    var users: seq<User>

    ghost predicate Valid()
      reads this
    {
      UniqueUsernames(users)
    }

    constructor ()
      ensures users == [] && Valid()
    {
      users := [];
    }

    /** `signup(user)`: the new row is appended, or the table is unchanged
        and the exception is returned. */
    method Signup(username: string, password: string, salt: nat) returns (r: Result<SignupResponse>)
      requires Valid()
      modifies this
      ensures Valid()
      ensures match Register(old(users), username, password, salt)
        case Raise(e) => r == Raise(e) && users == old(users)
        case Ok(after) => r == Ok(SignupResponse(SignupSuccessful, username)) && users == after
    {
      if |password| > PasswordMaxLength {
        return Raise(ValidationError);
      }
      if FindUser(users, username).Some? {
        return Raise(HttpError(400, UsernameTaken));
      }
      var newUser := User(username, GetPasswordHash(password, salt));
      users := users + [newUser];
      r := Ok(SignupResponse(SignupSuccessful, newUser.username));
    }
  }
}
