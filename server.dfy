/**
 * The server process: the in-memory `users` list and the two request
 * handlers that read and extend it.
 */
module Api {
  import opened Wrappers
  import opened Json
  import opened Schema
  import opened Retrieve
  import opened Registry

  class Server {
    /** The registered users, oldest first. */
    var users: seq<User>

    ghost predicate Valid()
      reads this
    {
      IdsDistinct(users)
    }

    /** The server starts with nobody registered. */
    constructor ()
      ensures Valid() && users == []
    {
      users := [];
    }

    /** `users.some(u => u.id === sub)`: a scan that stops at the first hit. */
    method AnyHasId(sub: string) returns (found: bool)
      ensures found <==> HasId(users, sub)
    {
      var i := 0;
      while i < |users|
        invariant 0 <= i <= |users|
        invariant forall j :: 0 <= j < i ==> users[j].id != sub
      {
        if users[i].id == sub {
          return true;
        }
        i := i + 1;
      }
      return false;
    }

    /** `users.find(...)`: the first user with this subject and this key. */
    method FindMatching(sub: string, publicKey: string) returns (r: Option<User>)
      ensures r == Find(users, sub, publicKey)
    {
      var i := 0;
      while i < |users|
        invariant 0 <= i <= |users|
        invariant Find(users[i..], sub, publicKey) == Find(users, sub, publicKey)
      {
        if users[i].id == sub && users[i].publicKey == publicKey {
          return Some(users[i]);
        }
        assert users[i..][1..] == users[i + 1..];
        i := i + 1;
      }
      return None;
    }

    /**
     * POST /api/register: validate, refuse a subject that is already
     * registered, otherwise append the new user and return it. Every
     * failure is raised before the registry is written.
     */
    method Register(verify: Verifier, body: string) returns (r: Result<User, Error>)
      requires Valid()
      modifies this
      ensures Valid()
      ensures (users, r) == RegisterOutcome(old(users), ValidateAndRetrieve(verify, RegisterSchema, body))
    {
      var v := ValidateAndRetrieve(verify, RegisterSchema, body);
      ghost var outcome := RegisterOutcome(users, v);
      if v.Failure? {
        return Failure(v.error);
      }
      var user := NewUser(v.value);
      var taken := AnyHasId(user.id);
      if taken {
        return Failure(AlreadyRegistered);
      }
      assert outcome == (users + [user], Success(user));
      users := users + [user];
      return Success(user);
    }

    /**
     * POST /api/login: validate, then return the user registered under the
     * token's subject with the token's key. It only reads the registry.
     */
    method Login(verify: Verifier, body: string) returns (r: Result<User, Error>)
      ensures r == LoginOutcome(users, ValidateAndRetrieve(verify, LoginSchema, body))
    {
      var v := ValidateAndRetrieve(verify, LoginSchema, body);
      if v.Failure? {
        return Failure(v.error);
      }
      var user := FindMatching(LoginSubject(v.value), v.value.publicKey);
      if user.None? {
        return Failure(InvalidCredentials);
      }
      return Success(user.value);
    }
  }
}
