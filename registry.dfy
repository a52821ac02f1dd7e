/**
 * The server's user registry as values: the list of users, what
 * registering and logging in do to it, and the facts the protocol relies
 * on (one entry per subject, the first key is kept, a login learns nothing
 * about why it failed).
 */
module Registry {
  import opened Wrappers
  import opened Json
  import opened Schema
  import opened Retrieve

  /** One registered user: `name` is kept exactly as the registration payload carried it. */
  datatype User = User(id: string, name: JValue, email: string, publicKey: string)

  /** The registry invariant: no subject is registered twice. */
  predicate IdsDistinct(users: seq<User>) {
    forall i, j :: 0 <= i < j < |users| ==> users[i].id != users[j].id
  }

  /** `users.some(u => u.id === id)` */
  predicate HasId(users: seq<User>, id: string): (b: bool)
    ensures b <==> exists u :: u in users && u.id == id
  {
    exists i :: 0 <= i < |users| && users[i].id == id
  }

  predicate Matches(u: User, sub: string, publicKey: string) {
    u.id == sub && u.publicKey == publicKey
  }

  /** `users.find(...)`: the first user registered under sub with exactly this key. */
  function Find(users: seq<User>, sub: string, publicKey: string): (r: Option<User>)
    ensures r.Some? <==> exists i :: 0 <= i < |users| && Matches(users[i], sub, publicKey)
    ensures r.Some? ==> r.value in users && Matches(r.value, sub, publicKey)
  {
    if users == [] then None
    else if Matches(users[0], sub, publicKey) then Some(users[0])
    else
      var r := Find(users[1..], sub, publicKey);
      assert forall i :: 1 <= i < |users| ==> users[i] == users[1..][i - 1];
      r
  }

  /** The user a validated registration payload describes. */
  function NewUser(claims: Retrieved): (u: User)
    requires RegistrationPayloadValid(claims.payload)
    ensures Get(claims.payload.fields, "sub") == Some(JStr(u.id))
    ensures Get(claims.payload.fields, "name") == Some(u.name) && NameValid(u.name)
    ensures Get(claims.payload.fields, "email") == Some(JStr(u.email))
    ensures u.publicKey == claims.publicKey
  {
    var fields := claims.payload.fields;
    User(Get(fields, "sub").value.s, Get(fields, "name").value, Get(fields, "email").value.s, claims.publicKey)
  }

  /** The subject a validated login payload names. */
  function LoginSubject(claims: Retrieved): (sub: string)
    requires LoginPayloadValid(claims.payload)
    ensures Get(claims.payload.fields, "sub") == Some(JStr(sub))
  {
    Get(claims.payload.fields, "sub").value.s
  }

  /**
   * The registration handler after validateAndRetrieve: the new registry and
   * the response. Register-if-absent: an existing subject, whatever key it
   * presents, leaves the registry as it was.
   */
  function RegisterOutcome(users: seq<User>, v: Result<Retrieved, Error>): (r: (seq<User>, Result<User, Error>))
    requires v.Success? ==> RegistrationPayloadValid(v.value.payload)
    ensures r.1.Failure? ==> r.0 == users
    ensures r.1.Success? ==> v.Success? && r.0 == users + [r.1.value] && r.1.value == NewUser(v.value)
    ensures v.Failure? ==> r.1 == Failure(v.error)
    ensures v.Success? ==> (r.1.Success? <==> !HasId(users, NewUser(v.value).id))
    ensures v.Success? && r.1.Failure? ==> r.1.error == AlreadyRegistered
    ensures IdsDistinct(users) ==> IdsDistinct(r.0)
  {
    match v
    case Failure(e) => (users, Failure(e))
    case Success(claims) =>
      var u := NewUser(claims);
      if HasId(users, u.id) then (users, Failure(AlreadyRegistered))
      else (users + [u], Success(u))
  }

  /**
   * The login handler after validateAndRetrieve: success exactly when some
   * user has the subject and the key, and then that user.
   */
  function LoginOutcome(users: seq<User>, v: Result<Retrieved, Error>): (r: Result<User, Error>)
    requires v.Success? ==> LoginPayloadValid(v.value.payload)
    ensures v.Failure? ==> r == Failure(v.error)
    ensures v.Success? ==>
      (r.Success? <==> exists i :: 0 <= i < |users| && Matches(users[i], LoginSubject(v.value), v.value.publicKey))
    ensures r.Success? ==> r.value in users && Matches(r.value, LoginSubject(v.value), v.value.publicKey)
    ensures v.Success? && r.Failure? ==> r.error == InvalidCredentials
  {
    match v
    case Failure(e) => Failure(e)
    case Success(claims) =>
      match Find(users, LoginSubject(claims), claims.publicKey)
      case None => Failure(InvalidCredentials)
      case Some(u) => Success(u)
  }

  /** In a registry without duplicate subjects a matching user is the one Find returns. */
  lemma FindUnique(users: seq<User>, i: nat, sub: string, publicKey: string)
    requires IdsDistinct(users)
    requires i < |users| && Matches(users[i], sub, publicKey)
    ensures Find(users, sub, publicKey) == Some(users[i])
  {
    var r := Find(users, sub, publicKey);
    var j :| 0 <= j < |users| && users[j] == r.value;
    assert users[j].id == users[i].id;
  }

  /**
   * Once a subject is registered, a second registration under it fails
   * whatever key it carries, the registry keeps the first key, and only
   * that key logs in.
   */
  lemma FirstKeyWins(users: seq<User>, u1: User, u2: User)
    requires IdsDistinct(users) && !HasId(users, u1.id) && u2.id == u1.id
    ensures var after := users + [u1];
      && HasId(after, u2.id)
      && Find(after, u1.id, u1.publicKey) == Some(u1)
      && (u2.publicKey != u1.publicKey ==> Find(after, u2.id, u2.publicKey) == None)
  {
    var after := users + [u1];
    assert after[|users|] == u1;
    assert IdsDistinct(after);
    FindUnique(after, |users|, u1.id, u1.publicKey);
  }

  /**
   * An unknown subject and a known subject with the wrong key fail alike,
   * so a login cannot tell which subjects are registered.
   */
  lemma LoginFailureIndistinct(users: seq<User>, known: nat, unknown: string, publicKey: string)
    requires IdsDistinct(users) && known < |users| && users[known].publicKey != publicKey
    requires !HasId(users, unknown)
    ensures Find(users, users[known].id, publicKey) == Find(users, unknown, publicKey) == None
  {
  }
}
