/**
 * Sign-up (UserService.createUser) over the user table. The table is a store of rows
 * whose surrogate key is assigned by the store on insert; the password encoder is an
 * uninterpreted function fixed when the service is built.
 */
module Users {
  import opened ErrorCodes

  /** A stored account: surrogate key, login email and the encoded password. */
  datatype UserEntity = UserEntity(id: int, email: string, password: string)

  /** What sign-up answers with: the key of the new row. */
  datatype UserCreateResponse = UserCreateResponse(userId: int)

  /** The emails registered in a table. */
  function Emails(users: seq<UserEntity>): set<string>
  {
    set u | u in users :: u.email
  }

  /** The email of row i. */
  function EmailAt(users: seq<UserEntity>, i: int): string
    requires 0 <= i < |users|
  {
    users[i].email
  }

  /** The key of row i. */
  function UserIdAt(users: seq<UserEntity>, i: int): int
    requires 0 <= i < |users|
  {
    users[i].id
  }

  /** Keys grow in insertion order (the store hands out increasing keys). */
  ghost predicate IncreasingUserIds(users: seq<UserEntity>)
  {
    forall i, j :: 0 <= i < j < |users| ==> UserIdAt(users, i) < UserIdAt(users, j)
  }

  /** No two rows share an email. */
  ghost predicate UniqueEmails(users: seq<UserEntity>)
  {
    forall i, j :: 0 <= i < j < |users| ==> EmailAt(users, i) != EmailAt(users, j)
  }

  /** Appending a row keyed above every stored key keeps keys increasing. */
  lemma AppendIncreasingUserIds(users: seq<UserEntity>, u: UserEntity)
    requires IncreasingUserIds(users)
    requires forall v :: v in users ==> v.id < u.id
    ensures IncreasingUserIds(users + [u])
  {
    var s := users + [u];
    forall i, j | 0 <= i < j < |s|
      ensures UserIdAt(s, i) < UserIdAt(s, j)
    {
      if j < |users| {
        assert UserIdAt(s, i) == UserIdAt(users, i) && UserIdAt(s, j) == UserIdAt(users, j);
      } else {
        assert s[i] in users;
      }
    }
  }

  /** Registering an email not yet in the table keeps emails unique. */
  lemma {:induction false} RegisterKeepsEmailsUnique(users: seq<UserEntity>, u: UserEntity)
    requires UniqueEmails(users)
    requires u.email !in Emails(users)
    ensures UniqueEmails(users + [u])
  {
    var s := users + [u];
    forall i, j | 0 <= i < j < |s|
      ensures EmailAt(s, i) != EmailAt(s, j)
    {
      if j < |users| {
        assert EmailAt(s, i) == EmailAt(users, i) && EmailAt(s, j) == EmailAt(users, j);
      } else {
        assert s[i] in users;
      }
    }
  }

  /** findById: the first row whose key is `id`. */
  function FindUser(users: seq<UserEntity>, id: int): Option<UserEntity>
  {
    if users == [] then None
    else if users[0].id == id then Some(users[0])
    else FindUser(users[1..], id)
  }

  /** The lookup finds a row exactly when one carries the key, and what it finds carries it. */
  lemma {:induction false} FindUserSpec(users: seq<UserEntity>, id: int)
    ensures FindUser(users, id).None? <==> forall u :: u in users ==> u.id != id
    ensures FindUser(users, id).Some? ==> FindUser(users, id).value in users && FindUser(users, id).value.id == id
  {
    if users != [] && users[0].id != id {
      FindUserSpec(users[1..], id);
      assert users == [users[0]] + users[1..];
    }
  }

  /** With increasing keys, the key of a stored row finds exactly that row. */
  lemma {:induction false} FindUserMember(users: seq<UserEntity>, u: UserEntity)
    requires IncreasingUserIds(users) && u in users
    ensures FindUser(users, u.id) == Some(u)
  {
    if users[0] != u {
      var tail := users[1..];
      assert u in tail;
      var m :| 0 <= m < |tail| && tail[m] == u;
      assert UserIdAt(users, 0) < UserIdAt(users, m + 1);
      assert IncreasingUserIds(tail) by {
        forall i, j | 0 <= i < j < |tail|
          ensures UserIdAt(tail, i) < UserIdAt(tail, j)
        {
          assert UserIdAt(tail, i) == UserIdAt(users, i + 1) && UserIdAt(tail, j) == UserIdAt(users, j + 1);
        }
      }
      FindUserMember(tail, u);
    }
  }

  /** With increasing keys, a key carried by a stored row finds exactly that row. */
  lemma FindUserStored(users: seq<UserEntity>, id: int)
    ensures IncreasingUserIds(users) ==> forall u :: u in users && u.id == id ==> FindUser(users, id) == Some(u)
  {
    if IncreasingUserIds(users) {
      forall u | u in users && u.id == id
        ensures FindUser(users, id) == Some(u)
      {
        FindUserMember(users, u);
      }
    }
  }

  /** After an insert, the new key finds the new row and every other key finds what it found before. */
  lemma {:induction false} FindAfterInsert(users: seq<UserEntity>, u: UserEntity, id: int)
    requires forall v :: v in users ==> v.id < u.id
    ensures FindUser(users + [u], id) == if id == u.id then Some(u) else FindUser(users, id)
  {
    if users == [] {
      assert users + [u] == [u];
    } else {
      assert (users + [u])[1..] == users[1..] + [u];
      if users[0].id != id {
        FindAfterInsert(users[1..], u, id);
      }
    }
  }

  class UserEntityRepository {
    var users: seq<UserEntity>
    var nextId: int

    ghost predicate Valid()
      reads this
    {
      IncreasingUserIds(users) && forall u :: u in users ==> u.id < nextId
    }

    constructor ()
      ensures Valid() && users == [] && nextId == 1
    {
      users, nextId := [], 1;
    }

    /** existsByEmail. */
    predicate ExistsByEmail(email: string)
      reads this
    {
      email in Emails(users)
    }

    /** findById. */
    function FindById(id: int): (r: Option<UserEntity>)
      reads this
      ensures r.None? ==> forall u :: u in users ==> u.id != id
      ensures r.Some? ==> r.value in users && r.value.id == id
    {
      FindUserSpec(users, id);
      FindUser(users, id)
    }

    /** save of a new entity: the store assigns the next key and appends the row. */
    method Save(email: string, password: string) returns (saved: UserEntity)
      requires Valid()
      modifies this
      ensures Valid()
      ensures saved == UserEntity(old(nextId), email, password)
      ensures users == old(users) + [saved] && nextId == old(nextId) + 1
    {
      saved := UserEntity(nextId, email, password);
      AppendIncreasingUserIds(users, saved);
      users := users + [saved];
      nextId := nextId + 1;
    }
  }

  class UserService {
    const repository: UserEntityRepository
    /** The password encoder (BCrypt in the application). */
    const encode: string -> string

    /** The service starts over a well-formed table with unique emails. */
    constructor (repository: UserEntityRepository, encode: string -> string)
      requires repository.Valid() && UniqueEmails(repository.users)
      ensures this.repository == repository && this.encode == encode
      ensures Valid()
    {
      this.repository := repository;
      this.encode := encode;
    }

    /** Every row was inserted by sign-up, so emails are unique. */
    ghost predicate Valid()
      reads this, repository
    {
      repository.Valid() && UniqueEmails(repository.users)
    }

    /** createUser: reject a taken email, otherwise insert one row with the encoded password. */
    method CreateUser(email: string, password: string) returns (r: Result<UserCreateResponse>)
      requires Valid()
      modifies repository
      ensures Valid()
      ensures email in Emails(old(repository.users)) ==>
        r == Err(USER_EMAIL_DUPLICATED_EXCEPTION) && unchanged(repository)
      ensures email !in Emails(old(repository.users)) ==>
        && r == Ok(UserCreateResponse(old(repository.nextId)))
        && repository.users == old(repository.users) + [UserEntity(old(repository.nextId), email, encode(password))]
        && repository.nextId == old(repository.nextId) + 1
    {
      var duplicated := CheckDuplicateEmail(email);
      if duplicated.Fail? {
        return Err(duplicated.error);
      }
      var encodedPassword := encode(password);
      RegisterKeepsEmailsUnique(repository.users, UserEntity(repository.nextId, email, encodedPassword));
      var user := repository.Save(email, encodedPassword);
      r := Ok(UserCreateResponse(user.id));
    }

    /** checkDuplicateEmail. */
    method CheckDuplicateEmail(email: string) returns (r: Outcome)
      ensures r == if email in Emails(repository.users) then Fail(USER_EMAIL_DUPLICATED_EXCEPTION) else Pass
    {
      if repository.ExistsByEmail(email) {
        return Fail(USER_EMAIL_DUPLICATED_EXCEPTION);
      }
      return Pass;
    }
  }
}
